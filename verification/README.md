# Proofs about the profiler

A Dafny model of the parts of this repository whose behaviour depends on order, aliasing or
interleaving, with proofs of what they keep over every input and every run. `dafny verify
dfyconfig.toml` checks all of it.

- **AI telemetry** (`AiEntries`, `TelemetrySpec`, `TelemetryRuns`, `TelemetryTokens`, `TelemetryEntries`,
  `AiTelemetry`, `AiCollector`): the events of interleaved AI operations update three maps, a step counter, a
  `lastCall` alias and entries that a profile already holds. `TelemetrySpec` is the state machine on
  values, where a position in a log stands for an entry's identity; `AiTelemetry` is the class with
  its mutable objects, each method proved to take the state the specification gives. `TelemetryEntries`
  says what each entry holds, read off the events of the run alone.
- **Schema tree** (`Dotted`, `SchemaSpec`, `SchemaLaws`, `SchemaShapes`, `SchemaNames`,
  `SchemaCollector`): dotted
  paths folded back into a tree, embedded schemas expanded in a graph that may be cyclic.
  `SchemaCollector` builds the tree of mutable nodes and aliased lists and is proved to build
  `SchemaSpec`'s; the laws are about that.
- **Trace** (`TraceSpans`, `TraceTree`, `TraceLaws`, `TraceReports`, `TraceWindows`, `BuildTrace`): ids,
  parents, order and windows of the unified trace of a profile; `TraceLaws` states parents and order on
  the fields producers report.
- **Event handlers** (`HandlerSpec`, `HandlerRuns`, `EventProfiler`, `ListenerWrapping`): wrapped
  `@OnEvent` handlers as a protocol over interleaved executions.
- **Patching** (`Patching`, `EmitterPatch`): how several service instances patch and restore the same
  methods, and what an emission leaves behind.
- **Prices** (`PricingRuns`, `AiPricing`, `AiCosts`, `Rounding`): the cached price table and the cost
  arithmetic, over real numbers with the code's own rounding.
- **Bounded capture** (`AiCapture`): masking a window against masking the whole text.
- **Canonical forms and chains** (`MongoShapes`, `ObservedSaves`, `Csv`, `OverridesBlock`,
  `ReleaseChannel`, `ConfigGroups`). `ObjectLiterals` names the one key an object literal never takes,
  `CodeUnits` orders texts as JavaScript does.

Runs are sequences of events of any length and in any order; an event that cannot happen in a state
changes nothing. What an operation reads from outside (a clock, a fresh id, the active profile, what a
price table answers) is a parameter of its event.

## Where the code and its words part

- `buildTrace`: `packages/nest-profiler/src/interfaces/profile.interface.ts:288` says every span but
  the root reparents to the root at worst. `TraceReports.ToleranceClosesACycle` gives two spans that
  end up below each other and not below the root: a leaf that reports no parent, and a container that
  names the leaf as its own and starts within the half-millisecond tolerance after it.
  `TraceReports.RootedIffAnchored` says exactly what producers must report for that never to happen:
  every chain of reports ends, and that of a container at the root or at a span placed no later than it.
- `captureText`: `packages/nest-profiler-ai/src/ai-capture.ts:424-425` says masking runs over the whole
  text; it runs over a window. `AiCapture.WindowIsEnough` says when that makes no difference,
  `AiCapture.MarginIsTight` that the bound cannot be relaxed by one character, and
  `AiCapture.ShrinkageShows` that no pattern need be longer than the longest for it to show.
- `release-channel.ts`: a package moved from one prerelease channel to one earlier in the alphabet goes
  backwards (`ReleaseChannel.ChangingChannelGoesBack`); `ReleaseChannel.MovesForwardIff` is the exact
  condition.
- `use-nestjs-version.ts`: a file without an `overrides:` line is not restored, the section stays
  behind (`OverridesBlock.SectionStaysBehind`); `OverridesBlock.RestoredIffSection` is the condition.
  One that, its trailing white space trimmed, ends in a line `overrides:` is given a second
  (`OverridesBlock.SwitchesAddASection`).
- `mongoose-connection.patch.ts:297-298` says `$__delta` is restored once the save settled: saves of
  one document that cross leave an observer behind. `ObservedSaves.RestoredIffTracedBack` says exactly
  when, for every run; for saves that all overlap, `ObservedSaves.OverlappingSavesRestoreIffFirstIsLast`.
- `ai-pricing.ts`: `packages/nest-profiler-ai/src/ai-pricing.ts:83-84` says the next expiry will try again. It
  does exactly unless a call threw before it returned a promise (`PricingRuns.LookupRefreshes`,
  `PricingRuns.ThrowingWedges`, `PricingRuns.ThrowingOnceIsForever`). A configuration made while a load
  is open is answered from the old source once that settles
  (`PricingRuns.OldSourceAnswersNewConfiguration`); `PricingRuns.LookupsReadTheLastAnswer` says exactly
  whose result lookups read.
- `shapeKey`: `packages/nest-profiler-mongoose/src/mongoose-schema.collector.ts:165-167` says one shape
  embedded in several places is recognised as one. It is not for a schema met inside itself and outside
  (`SchemaShapes.ShapeDependsOnAncestors`), nor eight schemas down (`SchemaShapes.DepthCuts`), nor for
  a schema that leads back to itself and a fresh one that leads to it (`SchemaShapes.TwinsMetTwice`).
  `SchemaShapes.ShapesAgreeIffCutAlike` is the exact condition for schemas that declare the same, one
  or two; `SchemaShapes.FreshSchemasShareAShape` is the promise where it holds.
- `flattenAndMask`: an empty key is not kept apart from what is under it, and a leaf goes missing
  (`ConfigGroups.EmptyKeysLoseLeaves`); so does a leaf named `__proto__` right below its namespace.
  `ConfigGroups.NoLeafIsLostIffNamedOnce` is the condition.
- `emitAsync`: a call that throws before it returns a promise leaves no entry, where `emit` leaves one
  (`EmitterPatch.EmissionRecordsOnce`).
- `EventEmitterPatch`: patching is not handed over; an instance that came second has nothing patched
  once the first is gone (`Patching.SecondComerStaysOut`).

## Model

| member | source | states |
|---|---|---|
| `TelemetryRuns.StepNumbering` | packages/nest-profiler-ai/src/ai-telemetry.ts:814-863 | over every profiled run, the completed calls of one operation carry steps 0, 1, … in recording order, and a failed one carries the number completed before it |
| `TelemetryRuns.EndFoldsIntoLastCall` | packages/nest-profiler-ai/src/ai-telemetry.ts:696-729 | the end of an operation removes it and folds its result into the last call recorded for it, changing no other entry |
| `TelemetryRuns.EndSynthesizesMissingCall` | packages/nest-profiler-ai/src/ai-telemetry.ts:741-778 | exactly when no call and no error was recorded for it, its end appends one synthesised call, at step 0 and under its own id, and keeps every other entry |
| `TelemetryEntries.EndTellsTheLastCall` | packages/nest-profiler-ai/src/ai-telemetry.ts:696-729 | in every run the end of an operation that recorded a call rewrites that call and nothing else: its output is the object handed over, else the parsed text exactly when a strategy was given, if it is kept, and otherwise what it was; approvals, reasoning and warnings are replaced exactly when the result has them; usage and price are the turn's exactly for a harness none of whose calls reported tokens; every other field stays |
| `TelemetryEntries.EndTellsTheMissingCall` | packages/nest-profiler-ai/src/ai-telemetry.ts:741-778 | that of one that recorded none appends one call, made up from what the operation was started with and told since, with the same result taken |
| `TelemetryEntries.CompletedCallsHold` | packages/nest-profiler-ai/src/ai-telemetry.ts:814-863 | in every run a completed call holds its own start, the operation, strategy, schema and name told by then, and the usage, answering model and price reported |
| `TelemetryEntries.FailedCallsHold` | packages/nest-profiler-ai/src/ai-telemetry.ts:912-944 | a failed call holds its error, its own start or else its operation's, and no usage, price or output |
| `TelemetryEntries.ToolsHold` | packages/nest-profiler-ai/src/ai-telemetry.ts:865-910 | a tool run holds its own start and error, and is no call |
| `TelemetryEntries.StartsAreLive` | packages/nest-profiler-ai/src/ai-telemetry.ts:635-679 | a start makes a new operation live under its id, with nothing reported, completed or recorded, whatever was live there |
| `TelemetryEntries.SettledSpecsReachTheLastCall` | packages/nest-profiler-ai/src/ai-telemetry.ts:667-694 | a schema or name that settles is written to the last call recorded exactly where that has none, and to no other entry |
| `TelemetryEntries.OthersKeepEntries` | packages/nest-profiler-ai/src/ai-telemetry.ts:635-910 | no other event touches an entry that is there |
| `TelemetryEntries.PricesAreFirst` | packages/nest-profiler-ai/src/ai-telemetry.ts:418-434 | the price is the provider's own figure, else the quote for the model that answered, else that for the model asked for, and none without a usage |
| `TelemetryRuns.EndedOperationsOwnACall` | packages/nest-profiler-ai/src/ai-telemetry.ts:696-778 | every operation that ended in a profiled execution owns a call entry from then on |
| `TelemetryRuns.RunsAreOwned` | packages/nest-profiler-ai/src/ai-telemetry.ts:946-960 | over every run, `lastCall` is the last call recorded while its operation was live, and entries belong to the operation of their call id |
| `TelemetryRuns.RunsAreNumbered` | packages/nest-profiler-ai/src/ai-telemetry.ts:814-944 | over every profiled run, the step counter of an operation is the number of calls completed for it, and every entry carries it as it stood |
| `TelemetryTokens.TokensAreCountedOnce` | packages/nest-profiler-ai/src/ai-telemetry.ts:441-449 | an ended harness operation with a recorded call adds to the total the sum its calls reported when positive, else the turn's total; any other adds what its calls reported, or the usage of its result if it made none |
| `TelemetryTokens.ProfileTotalIsConserved` | packages/nest-profiler-ai/src/ai.collector.ts:79-96 | the tokens of one profile are the contributions of its operations, each once, plus the calls recorded outside any |
| `TelemetryTokens.StepTokens` | packages/nest-profiler-ai/src/ai-telemetry.ts:814-863 | until it ends, an operation's entries gain exactly the tokens its completed calls report, whatever other operations do |
| `AiTelemetry.AiProfilerTelemetry.OnStart` | packages/nest-profiler-ai/src/ai-telemetry.ts:635-679 | starting an operation replaces whatever its call id stood for, touching no entry |
| `AiTelemetry.AiProfilerTelemetry.OnLanguageModelCallStart` | packages/nest-profiler-ai/src/ai-telemetry.ts:780-812 | a call's start is kept under its call id until it completes or fails |
| `AiTelemetry.AiProfilerTelemetry.OnLanguageModelCallEnd` | packages/nest-profiler-ai/src/ai-telemetry.ts:814-863 | the completed call is appended to the active profile by reference, counted, and made the last call of its live operation |
| `AiTelemetry.AiProfilerTelemetry.OnError` | packages/nest-profiler-ai/src/ai-telemetry.ts:912-944 | a failed call is appended and linked, but not counted |
| `AiTelemetry.AiProfilerTelemetry.OnToolExecutionStart` | packages/nest-profiler-ai/src/ai-telemetry.ts:865-867 | a tool's start is kept under its own id |
| `AiTelemetry.AiProfilerTelemetry.OnToolExecutionEnd` | packages/nest-profiler-ai/src/ai-telemetry.ts:869-910 | a tool's run is appended with the start kept for it, and is never a last call |
| `AiTelemetry.AiProfilerTelemetry.OnEnd` | packages/nest-profiler-ai/src/ai-telemetry.ts:696-729 | ending an operation rewrites the entry `lastCall` points at where the profile holds it, or records a synthesised one |
| `AiTelemetry.AiProfilerTelemetry.OnSpecSettled` | packages/nest-profiler-ai/src/ai-telemetry.ts:685-694 | an output spec that settles late is written to its operation and to the call entry already recorded for it |
| `AiCollector.Collect` | packages/nest-profiler-ai/src/ai.collector.ts:79-96 | the raw entries are taken off the profile and handed on; counts add up, tokens are exact, the cost is the sum rounded to the nanodollar, and flags say whether any cost is known or estimated |
| `AiCollector.EntriesAddUp` | packages/nest-profiler-ai/src/ai.collector.ts:79-96 | the tokens summed over a profile's entries are those the log recorded into it |
| `AiCollector.CollectedTokens` | packages/nest-profiler-ai/src/ai.collector.ts:79-96 | for a profile the telemetry filled, `totalTokens` is exactly what the run's operations contribute |
| `SchemaCollector.FieldsOf` | packages/nest-profiler-mongoose/src/mongoose-schema.collector.ts:105-136 | the nodes and aliased lists allocated for a schema, cyclic graphs included, represent exactly the tree the specification gives; termination by `MAX_DEPTH` less the schemas entered |
| `SchemaCollector.FieldOf` | packages/nest-profiler-mongoose/src/mongoose-schema.collector.ts:138-162 | the node of a path represents the field of the specification, its embedded schema expanded or cut |
| `SchemaCollector.Walk` | packages/nest-profiler-mongoose/src/mongoose-schema.collector.ts:116-133 | every proper prefix of a path is found again through the map or allocated once, at the end of its siblings |
| `SchemaCollector.PushLeaf` | packages/nest-profiler-mongoose/src/mongoose-schema.collector.ts:134-134 | pushing a path onto an aliased list completes it and changes no other list |
| `SchemaLaws.LevelListsEachPathOnce` | packages/nest-profiler-mongoose/src/mongoose-schema.collector.ts:105-136 | flattening a level lists every path once and one object per distinct proper prefix, each at the depth of its segments, an embedded schema right after the path that embeds it |
| `SchemaLaws.FlattenIsParentFirst` | packages/nest-profiler-mongoose/src/mongoose-schema.collector.ts:186-188 | every row below the top comes after its parent, one level up, with nothing shallower in between |
| `SchemaLaws.ModelRowsAreNested` | packages/nest-profiler-mongoose/src/mongoose-schema.collector.ts:227-230 | the rows of a model: each is a root, or follows its parent and extends its path by a dot |
| `SchemaLaws.FieldsExtend` | packages/nest-profiler-mongoose/src/mongoose-schema.collector.ts:105-162 | every path of an expanded schema starts with its prefix and extends its parent's path plus a dot |
| `SchemaShapes.ShapesAreContents` | packages/nest-profiler-mongoose/src/mongoose-schema.collector.ts:170-183 | two structures before hashing are equal exactly when relative names, types, requiredness, targets and nesting agree at every depth |
| `SchemaNames.StructuresAreDocuments` | packages/nest-profiler-mongoose/src/mongoose-schema.collector.ts:170-183 | where every path is its prefix and a rest, two structures are equal exactly when rests, types, requiredness, targets and nesting agree at every depth |
| `SchemaNames.FieldsExtendTheirPrefix` | packages/nest-profiler-mongoose/src/mongoose-schema.collector.ts:105-162 | and in the tree of any schema every path is its prefix and a rest, at every depth |
| `SchemaNames.StructuresNameKeys` | packages/nest-profiler-mongoose/src/mongoose-schema.collector.ts:105-183 | the structure of a schema names every key the schema declares, in full and once, in the order of the tree |
| `SchemaNames.EqualStructuresDeclareTheSameKeys` | packages/nest-profiler-mongoose/src/mongoose-schema.collector.ts:105-183 | equal structures are of schemas that declare the same keys, one after the other in the order of the tree, and position by position when no key is dotted |
| `SchemaNames.DottedKeysMayChangePlaces` | packages/nest-profiler-mongoose/src/mongoose-schema.collector.ts:114-133 | with dotted keys not position by position: two schemas that list the same paths in another order have one structure |
| `SchemaNames.PathsShowWhatTheyDeclare` | packages/nest-profiler-mongoose/src/mongoose-schema.collector.ts:62-162 | type name, requiredness, default, reference and embedding of a field from what its path declares, and when an embedded schema is entered |
| `SchemaShapes.ShapeIsRelocatable` | packages/nest-profiler-mongoose/src/mongoose-schema.collector.ts:170-183 | expanding one schema under any two prefixes with the same ancestors gives one structure |
| `SchemaShapes.EmbeddedShape` | packages/nest-profiler-mongoose/src/mongoose-schema.collector.ts:170-183 | an embedding field's structure is that of the schema it embeds, whatever else differs |
| `SchemaShapes.ShapesAgreeIffCutAlike` | packages/nest-profiler-mongoose/src/mongoose-schema.collector.ts:138-183 | two embeddings of schemas that declare the same, one schema or one built afresh, under any paths and ancestors, have one structure exactly when every way down to a schema with paths is entered in both places or in neither: entered means no schema met twice or already an ancestor, and none past `MAX_DEPTH` |
| `SchemaShapes.FreshSchemasShareAShape` | packages/nest-profiler-mongoose/src/mongoose-schema.collector.ts:165-183 | schemas built afresh from the same declarations have one structure wherever the same members of their families are being expanded and the families fit in the depth left |
| `SchemaShapes.TwinWays` | packages/nest-profiler-mongoose/src/mongoose-schema.collector.ts:105-162 | the ways down from schemas that declare the same are the same, and meet schemas that declare the same |
| `SchemaShapes.ShapeDependsOnFamilyOnly` | packages/nest-profiler-mongoose/src/mongoose-schema.collector.ts:165-183 | as one schema has with itself, whatever ancestors of other families there are |
| `SchemaShapes.ShapeDependsOnAncestors` | packages/nest-profiler-mongoose/src/mongoose-schema.collector.ts:156-156 | one schema met inside itself and outside has two structures |
| `SchemaShapes.TwinsMetTwice` | packages/nest-profiler-mongoose/src/mongoose-schema.collector.ts:156-156 | two schemas declared the same have two structures when one leads back to itself and the other to it |
| `SchemaShapes.DepthCuts` | packages/nest-profiler-mongoose/src/mongoose-schema.collector.ts:156-156 | below `MAX_DEPTH` ancestors any schema with paths has another structure than above |
| `TraceSpans.Identify` | packages/nest-profiler/src/trace/build-trace.ts:143-155 | every span keeps the id it reports when it is first to report it, and otherwise takes its kind and the first number free from its own on; ids are distinct, none is the root's, and numbers grow as reported |
| `TraceTree.PlacingOrderPlacesAll` | packages/nest-profiler/src/trace/build-trace.ts:162-168 | every span is placed once, containers before all others, earliest first |
| `TraceTree.SortSorts` | packages/nest-profiler/src/trace/build-trace.ts:162-164 | the sort is a permutation in the order of its comparator |
| `TraceTree.DescendsFrom` | packages/nest-profiler/src/trace/build-trace.ts:174-183 | answers whether one id is, or sits below, another, and terminates on cycles |
| `TraceTree.Enclosing` | packages/nest-profiler/src/trace/build-trace.ts:196-211 | the loop makes exactly the choice `Choice` folds over the containers placed |
| `TraceTree.ChoiceIsTightest` | packages/nest-profiler/src/trace/build-trace.ts:196-211 | the choice encloses the span, none placed before is shorter, and of those as short none but the root starts later; there is none only when nothing encloses it |
| `TraceTree.ChoiceIsDeepest` | packages/nest-profiler/src/trace/build-trace.ts:205-211 | of containers as short none placed after the choice sits below it |
| `TraceTree.Place` | packages/nest-profiler/src/trace/build-trace.ts:185-216 | the loop computes the one placement `Placement` defines, every tie included |
| `TraceTree.PlacementPlaces` | packages/nest-profiler/src/trace/build-trace.ts:185-216 | each span's parent is the reported one when that is another span of the trace, else a tightest container placed before it that it starts in, else the root |
| `TraceLaws.ParentsAre` | packages/nest-profiler/src/trace/build-trace.ts:185-216 | on reported fields alone: a parent named is the parent; any other is a shortest, and of those a latest, of the spans placed before that may adopt and were open as the span started; else the root |
| `TraceLaws.OthersNeverAdopt` | packages/nest-profiler/src/trace/build-trace.ts:15-28 | a span in the lifecycle band, one that says it is no container, and one of any other kind that says nothing is never an inferred parent |
| `TraceLaws.PlacingOrderIs` | packages/nest-profiler/src/trace/build-trace.ts:157-168 | containers are placed first; of either kind the earlier, of two that start together the longer, then the first reported |
| `TraceLaws.LongerIsNeverBelow` | packages/nest-profiler/src/trace/build-trace.ts:157-216 | of two containers that start together, time never puts the longer below the shorter |
| `TraceLaws.ShownOrderIs` | packages/nest-profiler/src/trace/build-trace.ts:219-221 | spans are shown by start, then in the order reported |
| `TraceReports.RootedIffAnchored` | packages/nest-profiler/src/trace/build-trace.ts:185-216 | every span comes out below the root whatever the windows exactly when every chain of reports ends, and that of a container at the root or at a span placed no later; otherwise there are windows, in the same order, for which one does not |
| `TraceReports.AnchoredIsRooted` | packages/nest-profiler/src/trace/build-trace.ts:185-216 | so reported, every span of a placement descends from the root |
| `TraceReports.EndlessIsStray` | packages/nest-profiler/src/trace/build-trace.ts:191-195 | a chain of reports that never ends never reaches the root, for any windows |
| `TraceReports.AdoptedAnchorIsStray` | packages/nest-profiler/src/trace/build-trace.ts:196-211 | nor does a container whose chain of reports ends at a later span that starts in it and in no container as short |
| `TraceTree.RootedUnlessReportedBelow` | packages/nest-profiler/src/trace/build-trace.ts:185-216 | for given windows, inferring parents closes no cycle on its own: a span strays only where one reports as its parent a span that came out below it |
| `TraceReports.ToleranceClosesACycle` | packages/nest-profiler/src/trace/build-trace.ts:92-96 | two spans that come out below each other and not below the root |
| `TraceWindows.Reconcile` | packages/nest-profiler/src/trace/build-trace.ts:256-281 | windows are only widened; over a forest each becomes the tightest that covers all below it, both ends being those of some span there |
| `TraceWindows.DepthOf` | packages/nest-profiler/src/trace/build-trace.ts:259-269 | the depth is the number of spans met on the way up before there is none, or one met already; over a forest, the number of ancestors |
| `TraceWindows.DeepestFirstOrders` | packages/nest-profiler/src/trace/build-trace.ts:271-272 | every span is processed once, none before a deeper one |
| `BuildTrace.RootSpan` | packages/nest-profiler/src/trace/build-trace.ts:127-137 | the root is the entrypoint, and lasts as it did, else to the last end observed, and never less than nothing |
| `BuildTrace.BuildTrace` | packages/nest-profiler/src/trace/build-trace.ts:110-242 | the trace is the root and every span reported, each once, under its own id and the parent placed, earliest first; when reports are anchored every span descends from the root, and whenever they all do each window is the tightest around all below it |
| `HandlerRuns.RunsTellStories` | packages/nest-profiler-event-emitter/src/event-profiler.service.ts:253-291 | over every interleaving, the phase, profile and actions of a wrapped handler are a function of its own events alone |
| `HandlerRuns.FinalizedThenPersistedOnce` | packages/nest-profiler-event-emitter/src/event-profiler.service.ts:253-291 | once a handler's outcome is known its profile has been finalised once, as failed or not, and its persistence requested once, after that; before, neither |
| `HandlerRuns.OutcomePassesThrough` | packages/nest-profiler-event-emitter/src/event-profiler.service.ts:258-307 | what is returned or settled is the handler's own outcome; that storing failed is logged and keeps no answer back; a promise is handed back exactly for a thenable |
| `HandlerRuns.SynchronousStaysSynchronous` | packages/nest-profiler-event-emitter/src/event-profiler.service.ts:258-274 | in every run a handler that ended at once was finalised, persisted and answered with nothing of any other execution in between, and did nothing else |
| `HandlerRuns.StepIsolates` | packages/nest-profiler-event-emitter/src/event-profiler.service.ts:223-238 | an event of another context, the call of a handler from this one included, changes neither its store nor its profile |
| `HandlerRuns.CallsInherit` | packages/nest-profiler-event-emitter/src/event-profiler.service.ts:223-238 | in every run a handler's context has every key of the store it was called from, a branch of its own that carries on that store's trace and other keys or begins a trace, and a new profile |
| `HandlerRuns.TraceIsTheRoots` | packages/nest-profiler-event-emitter/src/event-profiler.service.ts:142-152 | every execution carries the trace id of the root of its emission tree |
| `EventProfiler.EventProfilerService.BuildProfile` | packages/nest-profiler-event-emitter/src/event-profiler.service.ts:142-173 | a fresh profile on the active trace, or on one of its own |
| `EventProfiler.EventProfilerService.BuildClsStore` | packages/nest-profiler-event-emitter/src/event-profiler.service.ts:223-238 | the child's store has every key of the parent's and a `profiler` branch that is a fresh object |
| `EventProfiler.EventProfilerService.Finalize` | packages/nest-profiler-event-emitter/src/event-profiler.service.ts:175-184 | status, success and exception of a profile say whether its handler failed, and nothing else changes |
| `EventProfiler.EventProfilerService.Call` | packages/nest-profiler-event-emitter/src/event-profiler.service.ts:253-258 | calling a wrapped handler opens a context of its own and writes to none there is |
| `EventProfiler.EventProfilerService.End` | packages/nest-profiler-event-emitter/src/event-profiler.service.ts:258-275 | the `try` of the wrapper: finalised, persistence requested and the outcome handed on, or a promise to wait for |
| `EventProfiler.EventProfilerService.Resolve` | packages/nest-profiler-event-emitter/src/event-profiler.service.ts:277-288 | the settled promise: finalised, then persistence requested |
| `EventProfiler.EventProfilerService.Persisted` | packages/nest-profiler-event-emitter/src/event-profiler.service.ts:301-307 | storing that failed is logged, and neither fails the handler nor replaces its outcome |
| `ListenerWrapping.GroupByHandler` | packages/nest-profiler-event-emitter/src/event-profiler.service.ts:62-83 | through aliased lists and nested maps, one group per handler in order of first appearance, each holding its subscriptions in order, under distinct keys |
| `ListenerWrapping.HandlersFirstSeen` | packages/nest-profiler-event-emitter/src/event-profiler.service.ts:62-83 | handlers stand in the order their first subscriptions do |
| `ListenerWrapping.SubscriptionsInOrder` | packages/nest-profiler-event-emitter/src/event-profiler.service.ts:62-83 | the subscriptions of a handler stand in the order they were found |
| `ListenerWrapping.EventNamesAreJoined` | packages/nest-profiler-event-emitter/src/event-profiler.service.ts:193-195 | a wrapper files its profiles under all events of its handler, in order, a comma and a space between |
| `ListenerWrapping.GroupsPartition` | packages/nest-profiler-event-emitter/src/event-profiler.service.ts:62-83 | the groups partition the subscriptions |
| `ListenerWrapping.KeysDiffer` | packages/nest-profiler-event-emitter/src/event-profiler.service.ts:79-80 | two groups never share a key, whatever characters names hold |
| `ListenerWrapping.ListenerWrapper.WrapListener` | packages/nest-profiler-event-emitter/src/event-profiler.service.ts:186-216 | a method is wrapped once, under the names of all its events, unless it is none or wrapped already |
| `ListenerWrapping.ListenerWrapper.OnApplicationBootstrap` | packages/nest-profiler-event-emitter/src/event-profiler.service.ts:110-134 | bootstrap is one installation of a wrapper for every group |
| `ListenerWrapping.ListenerWrapper.OnModuleDestroy` | packages/nest-profiler-event-emitter/src/event-profiler.service.ts:136-140 | shutdown restores, in order, what this service wrapped |
| `ListenerWrapping.BootstrapWrapsEachHandler` | packages/nest-profiler-event-emitter/src/event-profiler.service.ts:110-134 | from untouched providers exactly the handlers subscribed carry one wrapper, naming all of their events |
| `Patching.RunsRealiseHolds` | packages/nest-profiler-event-emitter/src/event-emitter.patch.ts:84-112 | over every sequence of installations and removals by any number of instances, a method is its original or exactly one wrapper around it, that of the first to have come while it was free and not gone since, which alone would restore it |
| `Patching.GoneMeansRestored` | packages/nest-profiler-event-emitter/src/event-emitter.patch.ts:107-112 | when the instance holding a method goes, the method is the original again; others are untouched |
| `Patching.SecondComerStaysOut` | packages/nest-profiler-event-emitter/src/event-emitter.patch.ts:164-166 | an instance that came second has nothing patched once the first is gone |
| `EmitterPatch.EventEmitterPatch.OnModuleInit` | packages/nest-profiler-event-emitter/src/event-emitter.patch.ts:84-105 | patches both methods, or nothing without a CLS service or an emitter |
| `EmitterPatch.EventEmitterPatch.OnModuleDestroy` | packages/nest-profiler-event-emitter/src/event-emitter.patch.ts:107-112 | runs the restorers in order and forgets them |
| `EmitterPatch.EventEmitterPatch.PatchEmit` | packages/nest-profiler-event-emitter/src/event-emitter.patch.ts:164-210 | wraps `emit` unless it is wrapped, keeping what to restore |
| `EmitterPatch.EventEmitterPatch.PatchEmitAsync` | packages/nest-profiler-event-emitter/src/event-emitter.patch.ts:217-266 | wraps `emitAsync` likewise |
| `EmitterPatch.EmissionRecordsOnce` | packages/nest-profiler-event-emitter/src/event-emitter.patch.ts:168-261 | over any nesting of emissions and any patching meanwhile, an emission has left an entry exactly when it is over, was made through a wrapper, profiled and not ignored, and was not an `emitAsync` that threw at once; then one, in the profile it was made in, with its own name and error |
| `EmitterPatch.EmissionsAreMade` | packages/nest-profiler-event-emitter/src/event-emitter.patch.ts:168-209 | an emission runs through what the emitter holds as it is made, for the profile active then |
| `EmitterPatch.IgnoredIff` | packages/nest-profiler-event-emitter/src/event-emitter.patch.ts:149-158 | an event is ignored exactly when it is the emitter's own, or a rule names or accepts it |
| `EmitterPatch.TestIgnored` | packages/nest-profiler-event-emitter/src/event-emitter.patch.ts:149-158 | the rules answer by the event's name alone: a shared expression's `lastIndex` never shows |
| `PricingRuns.RunsHold` | packages/nest-profiler-ai/src/ai-pricing.ts:78-115 | over every run on a clock, configured with nothing in flight and with a source that never throws at once: at most one open call, each begun when none was over or the TTL had run out, and lookups read the last result whole |
| `PricingRuns.WithoutTtlLoadsOnce` | packages/nest-profiler-ai/src/ai-pricing.ts:92-94 | without a TTL the source is called at most once, failures included |
| `PricingRuns.CallsAreSpaced` | packages/nest-profiler-ai/src/ai-pricing.ts:92-115 | a call begins a TTL after the one before it was over |
| `PricingRuns.LookupRefreshes` | packages/nest-profiler-ai/src/ai-pricing.ts:78-115 | in every run configured with nothing in flight, a lookup calls the source exactly when there is one, no call of it is open, the last result has expired, and no call threw at once since it was configured |
| `PricingRuns.ThrowingWedges` | packages/nest-profiler-ai/src/ai-pricing.ts:78-90 | in every such run the code waits for a load that is never over exactly when a call threw at once since the last configuration |
| `PricingRuns.ThrowingOnceIsForever` | packages/nest-profiler-ai/src/ai-pricing.ts:103-115 | after which it is never called again |
| `PricingRuns.LookupsReadTheLastAnswer` | packages/nest-profiler-ai/src/ai-pricing.ts:64-90 | in every run, whatever was in flight, lookups read whole the result of the last call to be over since the last configuration, or nothing; it comes from the source configured exactly when that call was not open at the configuration |
| `PricingRuns.ConfiguredAsLast` | packages/nest-profiler-ai/src/ai-pricing.ts:64-71 | in every run static prices, source and TTL are those of the last configuration |
| `PricingRuns.OldSourceAnswersNewConfiguration` | packages/nest-profiler-ai/src/ai-pricing.ts:64-71 | in any run, a call open at a configuration answers for it as soon as it settles |
| `AiPricing.Normalise` | packages/nest-profiler-ai/src/ai-pricing.ts:57-61 | prices by lower-cased key, the last of those that differ in case only |
| `AiPricing.PriceRegistry.Configure` | packages/nest-profiler-ai/src/ai-pricing.ts:64-71 | the variables are reset to the new configuration, its table normalised; what is open stays open |
| `AiPricing.PriceRegistry.LoadAiPricing` | packages/nest-profiler-ai/src/ai-pricing.ts:103-108 | starts a load only when none is under way and the table is stale |
| `AiPricing.PriceRegistry.RefreshIfStale` | packages/nest-profiler-ai/src/ai-pricing.ts:111-115 | likewise, without waiting |
| `AiPricing.PriceRegistry.Settle` | packages/nest-profiler-ai/src/ai-pricing.ts:78-90 | a settled load replaces the whole table with its own, normalised, or empties it on failure, and counts as done |
| `AiPricing.PriceRegistry.PricingFor` | packages/nest-profiler-ai/src/ai-pricing.ts:133-146 | the price is that of the first key of the list that has one |
| `AiPricing.FirstPriceIsFirst` | packages/nest-profiler-ai/src/ai-pricing.ts:138-144 | of the keys in order the first in either table decides, the static table winning for that key |
| `AiPricing.KeysTried` | packages/nest-profiler-ai/src/ai-pricing.ts:133-146 | the model is looked up under the provider, under its root and alone, and if it has a variant all three again without it |
| `AiPricing.LowerIs` | packages/nest-profiler-ai/src/ai-pricing.ts:133-137 | A to Z are lowered and nothing else changes |
| `AiPricing.NoPriceMeansNoKey` | packages/nest-profiler-ai/src/ai-pricing.ts:145-145 | there is no price exactly when no key is in either table |
| `AiPricing.QualifiedKeyWins` | packages/nest-profiler-ai/src/ai-pricing.ts:138-142 | a price set under provider and model wins over any other |
| `AiPricing.VariantIsDropped` | packages/nest-profiler-ai/src/ai-pricing.ts:122-126 | a suffix in brackets is dropped from a model id that is not all suffix |
| `AiPricing.OtherwiseKept` | packages/nest-profiler-ai/src/ai-pricing.ts:122-126 | anything else is kept |
| `AiCosts.BilledPartitionsUsage` | packages/nest-profiler-ai/src/ai-pricing.ts:162-166 | the billed counts partition input and output exactly when the cached and thinking tokens fit in them; otherwise more is billed than was counted |
| `AiCosts.CostIs` | packages/nest-profiler-ai/src/ai-pricing.ts:153-177 | before rounding, the uncached input, the cache reads and writes, the text and the thinking each cost their own rate, or the one it refines |
| `AiCosts.MoreTokensCostNoLess` | packages/nest-profiler-ai/src/ai-pricing.ts:153-177 | the estimate is monotone in input and output |
| `AiCosts.HigherRatesCostNoLess` | packages/nest-profiler-ai/src/ai-pricing.ts:168-173 | and in every rate, fallbacks included |
| `AiCosts.FlatRateIsExact` | packages/nest-profiler-ai/src/ai-pricing.ts:162-176 | with one rate and counts that fit, the exact cost is that rate times the tokens |
| `AiCosts.TotalIsWithinHalfANanodollarPerCall` | packages/nest-profiler-ai/src/ai.collector.ts:44-51 | for the calls of a profile, however each was priced, the total shown is within n halves of a nanodollar of what they cost exactly, n being the number estimated, and one more half only if a provider reported some cost |
| `AiCapture.WindowIsEnough` | packages/nest-profiler-ai/src/ai-capture.ts:427-440 | masking and scrubbing the window and cutting is masking and scrubbing the whole text and cutting, whenever what the passes look ahead and take away within the window, and what the host's scrubber makes differ, stays below the margin |
| `AiCapture.PassesScrubAlike` | packages/nest-profiler-ai/src/ai-capture.ts:415-418 | a scrubber that masks by patterns of its own makes no more differ than they look ahead and take away |
| `AiCapture.MarginIsTight` | packages/nest-profiler-ai/src/ai-capture.ts:202-202 | a pass that reaches one character further can leave the two apart, for every length kept |
| `AiCapture.ShrinkageShows` | packages/nest-profiler-ai/src/ai-capture.ts:195-202 | so can a pass as long as the longest pattern, by what it takes away |
| `AiCapture.AllMaskedAlike` | packages/nest-profiler-ai/src/ai-capture.ts:436-438 | two texts alike up to n characters are masked alike up to what the passes look ahead and take away |
| `AiCapture.Bound` | packages/nest-profiler-ai/src/ai-capture.ts:362-365 | at most one character more than the maximum, a prefix of the text kept |
| `AiCapture.CaptureText` | packages/nest-profiler-ai/src/ai-capture.ts:427-440 | nothing is captured exactly for an empty text or the level `none`, and what is, is bounded whatever the scrubber |
| `AiCapture.MetadataTellsTheLength` | packages/nest-profiler-ai/src/ai-capture.ts:380-388 | at `metadata` two texts are captured alike exactly when they are of one length |
| `AiCapture.MetadataIsTheLength` | packages/nest-profiler-ai/src/ai-capture.ts:435-435 | as that length in words |
| `AiCapture.FullKeepsTheText` | packages/nest-profiler-ai/src/ai-capture.ts:436-439 | at `full` nothing is masked: the scrubbed whole text is kept, cut where it is too long |
| `AiCapture.RedactedMasksTheText` | packages/nest-profiler-ai/src/ai-capture.ts:436-439 | at `redacted` a text no longer than the window is masked whole, scrubbed and cut |
| `MongoShapes.SameShapeIffAlike` | packages/nest-profiler-mongoose/src/build-mongo-command.ts:72-82 | two arguments have one shape exactly when they are alike up to key order and leaf values at every depth, the key `__proto__` aside |
| `MongoShapes.ComputeShape` | packages/nest-profiler-mongoose/src/build-mongo-command.ts:72-82 | the loops over items and sorted keys compute the shape |
| `MongoShapes.ObjectShape` | packages/nest-profiler-mongoose/src/build-mongo-command.ts:74-80 | an object's shape holds, under its keys in order, the shapes of its values |
| `MongoShapes.ShapeOfShape` | packages/nest-profiler-mongoose/src/build-mongo-command.ts:72-82 | a shape is its own shape |
| `MongoShapes.FingerprintsAgreeIffAlike` | packages/nest-profiler-mongoose/src/build-mongo-command.ts:91-97 | two operations of one name on one collection and field have one fingerprint, as joined, exactly when argument and update are alike |
| `MongoShapes.FingerprintsTellOperations` | packages/nest-profiler-mongoose/src/build-mongo-command.ts:91-97 | operations share a fingerprint only on one collection and only if they are of one name, when names hold no space |
| `MongoShapes.FingerprintIs` | packages/nest-profiler-mongoose/src/build-mongo-command.ts:91-97 | operation, collection, field if any, the argument's shape and the update's if any, a space between |
| `MongoShapes.ArgumentsAre` | packages/nest-profiler-mongoose/src/build-mongo-command.ts:10-22 | the pipeline of an aggregation, the operations of a bulk write, the document of an `insertOne` or the documents, else the filter |
| `ObservedSaves.NestedSavesStack` | packages/nest-profiler-mongoose/src/mongoose-connection.patch.ts:300-342 | while the saves of each document are nested, whatever others do, its own `$__delta` is one observer a save under way around what it was |
| `ObservedSaves.NestedSavesRestore` | packages/nest-profiler-mongoose/src/mongoose-connection.patch.ts:320-322 | once none is under way it is as it was, present or absent |
| `ObservedSaves.SavesRecordTheirDelta` | packages/nest-profiler-mongoose/src/mongoose-connection.patch.ts:310-319 | each save describes the last delta computed on its document during its own run |
| `ObservedSaves.LastOverDecides` | packages/nest-profiler-mongoose/src/mongoose-connection.patch.ts:320-322 | in every run a document's property is as the save of it that was over last found it, when none has begun since |
| `ObservedSaves.RestoredIffTracedBack` | packages/nest-profiler-mongoose/src/mongoose-connection.patch.ts:300-342 | over every run, from whatever properties documents had, one is as it was exactly when, going back from the save over last to the time it began, and so on, one comes to a time before any save of it |
| `ObservedSaves.OverlappingSavesRestoreIffFirstIsLast` | packages/nest-profiler-mongoose/src/mongoose-connection.patch.ts:300-342 | however many saves of one document overlap, its property is as it was exactly when the first to begin is the last over |
| `Csv.RowReadsBack` | examples/api/src/shared/csv.util.ts:4-12 | a reader after section 2 of RFC 4180 gives back exactly the fields of a row |
| `Csv.RowsAreInjective` | examples/api/src/shared/csv.util.ts:10-12 | two rows are the same text only for the same fields |
| `Csv.FieldReadsBack` | examples/api/src/shared/csv.util.ts:4-7 | a field is read back up to the comma or the end that follows it |
| `Csv.QuotedIffNeeded` | examples/api/src/shared/csv.util.ts:4-7 | a field is quoted exactly when it holds a comma, a quote or a line break |
| `Csv.NoFieldsReadAsOne` | examples/api/src/shared/csv.util.ts:10-12 | an empty list and one empty field are the same row |
| `OverridesBlock.SwitchesDependOnTheLast` | scripts/use-nestjs-version.ts:50-73 | after any switches a file with an `overrides:` line depends on the original and the last major only, holds at most one block, and is the original again at the default |
| `OverridesBlock.RestoredIffSection` | scripts/use-nestjs-version.ts:65-72 | exactly the files with an `overrides:` line come back byte for byte |
| `OverridesBlock.SectionIsRestored` | scripts/use-nestjs-version.ts:50-55 | a block put under the section comes out without a trace |
| `OverridesBlock.SectionStaysBehind` | scripts/use-nestjs-version.ts:69-71 | a file without one keeps the section it was given, its trailing space trimmed |
| `OverridesBlock.SwitchesAddASection` | scripts/use-nestjs-version.ts:65-73 | such a file stays as it is at the default, and from the first other major on goes the way of the file with the section added; at that first switch itself exactly unless the trimmed file ends in a line `overrides:` |
| `OverridesBlock.InsertedWhere` | scripts/use-nestjs-version.ts:65-72 | the block goes right below the first line `overrides:`; without one, a section and the block go below the text |
| `OverridesBlock.SectionIs` | scripts/use-nestjs-version.ts:67-67 | a section is the line `overrides:` at the beginning of the text or after a line break |
| `OverridesBlock.TrimmedIs` | scripts/use-nestjs-version.ts:70-71 | the text is trimmed of all trailing white space and nothing else |
| `OverridesBlock.BlockIsLines` | scripts/use-nestjs-version.ts:57-63 | the block is a line for its beginning, one for each entry in order, and one for its end |
| `ReleaseChannel.MovesForwardIff` | scripts/changesets/release-channel.ts:107-130 | a release moves forward, in the precedence of section 11 of SemVer 2.0.0, exactly when its base moves, or the version before was on the channel, or is a prerelease before the channel's first |
| `ReleaseChannel.IdentifiersExample` | scripts/changesets/release-channel.ts:107-130 | the precedence meant orders the prereleases of section 11.4 of SemVer 2.0.0 as that section lists them |
| `ReleaseChannel.PrecedenceExample` | scripts/changesets/release-channel.ts:107-130 | and compares bases by their first number that differs, a prerelease before its version |
| `ReleaseChannel.ChainIncreases` | scripts/changesets/release-channel.ts:107-142 | along a chain whose bases never go back, every release but the first is later than the one before |
| `ReleaseChannel.CounterCountsReleases` | scripts/changesets/release-channel.ts:136-142 | the counter is the number of earlier consecutive releases on that base since the series started |
| `ReleaseChannel.ChainStaysBelowStable` | scripts/changesets/release-channel.ts:107-130 | every version of a chain stays below its stable one |
| `ReleaseChannel.VersionsParseBack` | scripts/changesets/release-channel.ts:39-39 | every version, of a channel or stable, parses back from its text as what it is |
| `ReleaseChannel.NextVersionParsesBack` | scripts/changesets/release-channel.ts:39-39 | a version of the channel parses back as what it is |
| `ReleaseChannel.ParsesIff` | scripts/changesets/release-channel.ts:39-39 | a text is read as a version exactly when it is three numbers, dots between, and after a hyphen a prerelease of letters, digits, dots and hyphens |
| `ReleaseChannel.ChangingChannelGoesBack` | scripts/changesets/release-channel.ts:136-142 | from `1.0.0-beta.5` to the channel `alpha` goes back to `1.0.0-alpha.0` |
| `ReleaseChannel.Repin` | scripts/changesets/version.ts:90-104 | only pinned packages Changesets touched are rewritten, each by its own earlier version |
| `ReleaseChannel.RepinnedIs` | scripts/changesets/version.ts:90-104 | a touched package gets the base computed on its own channel, counting on exactly when its version before was on both |
| `ConfigGroups.PlainTreesFlattenWhole` | packages/nest-profiler-config/src/config.collector.ts:182-200 | with keys not empty, dot-free and distinct, flattening gives an entry for each leaf but one named `__proto__` right below the namespace, in order, under its own path, masked by its own key and path, and no two under one name |
| `ConfigGroups.NoLeafIsLostIffNamedOnce` | packages/nest-profiler-config/src/config.collector.ts:182-200 | no leaf is lost exactly when no two are shown under one name and none under `__proto__` |
| `ConfigGroups.FlattenWritesRows` | packages/nest-profiler-config/src/config.collector.ts:189-197 | assigning flattened objects into one another is writing every leaf in order |
| `ConfigGroups.CountsAddUp` | packages/nest-profiler-config/src/config.collector.ts:145-177 | the key counts of the groups and the leaves lost to the name `__proto__` add up to the leaves outside `_PROCESS_ENV_VALIDATED`; the counts are exact exactly when there is no such leaf |
| `ConfigGroups.BuildGroups` | packages/nest-profiler-config/src/config.collector.ts:145-177 | the loop over the top-level keys builds exactly those groups: General first, if it has a leaf, then the namespaces in the comparison's order; for a plain tree with the entries `BuiltGroupsShow` states |
| `ConfigGroups.BuiltGroupsShow` | packages/nest-profiler-config/src/config.collector.ts:145-221 | for a plain tree the group `General` holds, in order, an entry for each top-level leaf but `__proto__`, the sentinel exactly when its key looks secret or the option names it and otherwise the leaf, its text scrubbed; then a group for each namespace but `_PROCESS_ENV_VALIDATED`, its leaves masked by their own keys and full paths |
| `ConfigGroups.GroupsAreInOrder` | packages/nest-profiler-config/src/config.collector.ts:165-165 | whatever the comparison, the namespaces come out in its order, each once |
| `ConfigGroups.MaskedIff` | packages/nest-profiler-config/src/config.collector.ts:204-221 | in all that is shown of a namespace the sentinel stands exactly for the leaves whose key looks secret, or whose key or full path the option names; any other entry is its leaf, its text scrubbed |
| `ConfigGroups.EmptyKeysLoseLeaves` | packages/nest-profiler-config/src/config.collector.ts:191-192 | an empty key loses a leaf |

## Left out

- `onObjectStepEnd`, provider payloads, messages, settings, tools, context, agents and durations of AI entries: carried along unread, like the instructions that are modelled.
- `flatUsage`, `costOf`, `contentOf` and the other readers of SDK events: an event arrives read.
- `executeLanguageModelCall`, CLS internals and promises: the active profile is a parameter of an event, and a continuation is an event.
- Ids and clocks: random ids are fresh by construction, the pricing clock never goes back, and performance figures of profiles are not part of this model.
- `AiCollector.Collect`: durations and capture levels are not part of what it returns here.
- `AiCollector.CollectedTokens`: speaks of tokens; the cost total is `AiCosts.TotalIsWithinHalfANanodollarPerCall`.
- `AiCosts.FlatRateIsExact`: money is real, so IEEE rounding of sums and products is not modelled, and `per` is positive; a zero or negative `per` gives no meaningful price.
- `AiPricing.PriceRegistry.PricingFor`: keys are those of a plain table; names an object inherits from its prototype (`constructor`, … or, once a price is set under `__proto__`, those of the price) are not modelled, and lower case is that of A to Z.
- Columns, relations and indexes of a mongoose model (`mapModel`, `mapIndexes`), and the digest of `shapeKey`: shapes are compared before hashing.
- `BuildTrace.BuildTrace`: times are whole microseconds, so rounding is exact; contributors arrive called, and status, lane, source, tags and meta of a span are copied unread.
- `TraceTree.RootedUnlessReportedBelow`: its condition is read off the parents placed; the conditions on what is reported are `TraceReports.RootedIffAnchored` for any windows, and for given ones, one way each, `TraceReports.EndlessIsStray` and `TraceReports.AdoptedAnchorIsStray`.
- Payloads, listener counts and durations of emissions; `toEventName`; the host replacing `emit` itself between a patch and its removal.
- `HandlerRuns.RunsTellStories`: what other instrumentation pushes to a profile besides entries is not modelled.
- `AiCapture.WindowIsEnough`: patterns are functions of text and position that match at least one character, and their regular expressions are not modelled; a scrubber is a function of the text that does not throw.
- `captureValue`, `capturePayload`, `truncateStrings`, `sanitizeDeep`, capture levels and their resolution: bounded recursion over a payload, easy beside what is proved.
- `MongoShapes.FingerprintsAgreeIffAlike`: `JSON.stringify` is any rendering of shapes none of which begins another; names, collections and fields that hold spaces may read alike, so they are equal here; integer-like keys, which a JavaScript object lists first, only change the one order a set of keys has.
- `buildMongoCommand`, `commandArguments`, `normalizeUpdate`, cursors and result counts.
- `ObservedSaves.NestedSavesStack`: saves of new documents install no observer and are left out, as is the entry a save is described by.
- `Csv.RowReadsBack`: the reader takes any character outside quotes but a quote, comma or line break, where the grammar's TEXTDATA is printable ASCII.
- `OverridesBlock.SwitchesDependOnTheLast`: for files without marker text, and majors whose entries hold no `#`, `$` or line break; white space is space, tab, line feed and carriage return.
- `ReleaseChannel.Repin`: manifests and changelogs are rewritten as text by the scripts; here a manifest is its version, and numbers have no leading zeros.
- `ConfigGroups.PlainTreesFlattenWhole`: keys come in the order they were set; a JavaScript object lists integer-like ones first, of the namespace read and of the entries shown alike.
- `ConfigGroups.BuildGroups`: `localeCompare` is any comparison; an object or array assigned to `__proto__` becomes the prototype of the group shown, which is not modelled beyond its entry being lost; which keys look secret and how values are scrubbed are parameters.
- Storage adapters, the rule engine, redaction of values, HTTP capture and rendering are not part of this model.
