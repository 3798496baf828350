/**
 * Token accounting over whole runs: what an operation's entries add to the collector's total,
 * against what its events reported. No token is counted twice, and none is dropped.
 */
module TelemetryTokens {
  import opened Options
  import opened AiEntries
  import opened TelemetrySpec
  import opened TelemetryRuns

  ghost function TokensOfEntry(e: Entry): nat {
    if e.Call? then TotalOf(e.call.usage) else 0
  }

  /** The tokens the entries of one operation add up to. */
  ghost function OwnedTokens<P>(log: seq<Recorded<P>>, k: nat): nat {
    if log == [] then 0 else
    var r := log[|log| - 1];
    OwnedTokens(log[..|log| - 1], k) + if r.owner == Some(k) then TokensOfEntry(r.entry) else 0
  }

  // ---- Reading the run, without the log ----

  /** The tokens the calls of operation `k` reported over a run. */
  ghost function Reported<P>(es: seq<Event<P>>, k: nat): nat {
    if es == [] then 0 else
    var before, e := es[..|es| - 1], es[|es| - 1];
    Reported(before, k) +
    if e.CallEnd? && OwnerOf(Run(before), e.callId) == Some(k) then TotalOf(UsageOf(e.end.usage)) else 0
  }

  /** The result operation `k` ended with, if the run ended it. */
  ghost function Ending<P>(es: seq<Event<P>>, k: nat): Option<EndEvent> {
    if es == [] then None else
    var before, e := es[..|es| - 1], es[|es| - 1];
    if e.End? && OwnerOf(Run(before), e.callId) == Some(k) then Some(e.result) else Ending(before, k)
  }

  // ---- How one step changes an operation's tokens ----

  ghost predicate SameTokens<P>(log: seq<Recorded<P>>, log': seq<Recorded<P>>, k: nat) {
    && |log| == |log'|
    && forall i | 0 <= i < |log| :: log[i].owner == log'[i].owner && log[i].origin == log'[i].origin
         && (log[i].owner == Some(k) ==> TokensOfEntry(log[i].entry) == TokensOfEntry(log'[i].entry))
  }

  lemma {:induction false} SameTokensAddUp<P>(log: seq<Recorded<P>>, log': seq<Recorded<P>>, k: nat)
    requires SameTokens(log, log', k)
    ensures OwnedTokens(log, k) == OwnedTokens(log', k)
  {
    if log != [] {
      SameTokensAddUp(log[..|log| - 1], log'[..|log| - 1], k);
    }
  }

  lemma {:induction false} RewriteTokens<P>(log: seq<Recorded<P>>, i: nat, r: Recorded<P>, k: nat)
    requires i < |log| && log[i].owner == r.owner == Some(k)
    ensures OwnedTokens(log[i := r], k) + TokensOfEntry(log[i].entry) == OwnedTokens(log, k) + TokensOfEntry(r.entry)
  {
    var before := log[..|log| - 1];
    if i == |log| - 1 {
      assert log[i := r][..i] == before;
    } else {
      assert log[i := r][..|log| - 1] == before[i := r];
      RewriteTokens(before, i, r, k);
    }
  }

  lemma {:induction false} TokensOfOneEntry<P>(log: seq<Recorded<P>>, i: nat, k: nat)
    requires i < |log| && log[i].owner == Some(k)
    ensures TokensOfEntry(log[i].entry) <= OwnedTokens(log, k)
  {
    if i < |log| - 1 {
      assert log[..|log| - 1][i] == log[i];
      TokensOfOneEntry(log[..|log| - 1], i, k);
    }
  }

  lemma {:induction false} NoTokensWithoutCalls<P>(log: seq<Recorded<P>>, k: nat)
    requires forall i | 0 <= i < |log| && log[i].owner == Some(k) :: !log[i].entry.Call?
    ensures OwnedTokens(log, k) == 0
  {
    if log != [] { NoTokensWithoutCalls(log[..|log| - 1], k); }
  }

  /** What the events of one step report for operation `k`. */
  ghost function ReportedBy<P>(s: State<P>, e: Event<P>, k: nat): nat {
    if e.CallEnd? && OwnerOf(s, e.callId) == Some(k) then TotalOf(UsageOf(e.end.usage)) else 0
  }

  ghost predicate Ends<P>(s: State<P>, e: Event<P>, k: nat) {
    e.End? && OwnerOf(s, e.callId) == Some(k)
  }

  ghost predicate Unsynthesized<P>(log: seq<Recorded<P>>, k: nat) {
    forall i | 0 <= i < |log| && log[i].owner == Some(k) :: !log[i].origin.Synthesized?
  }

  lemma AppendTokens<P>(log: seq<Recorded<P>>, r: Recorded<P>, k: nat)
    ensures Unsynthesized(log, k) && (r.owner == Some(k) ==> !r.origin.Synthesized?) ==> Unsynthesized(log + [r], k)
    ensures OwnedTokens(log + [r], k) == OwnedTokens(log, k) + if r.owner == Some(k) then TokensOfEntry(r.entry) else 0
  {
    assert (log + [r])[..|log|] == log;
  }

  /** A step in which operation `k` gains `reported` tokens and nothing else. */
  ghost predicate Gains<P>(s: State<P>, s': State<P>, k: nat, reported: nat)
    requires k < |s.ops| && k < |s'.ops|
  {
    && (Unsynthesized(s.log, k) ==> Unsynthesized(s'.log, k))
    && OwnedTokens(s'.log, k) == OwnedTokens(s.log, k) + reported
    && s'.ops[k].usageReported == (s.ops[k].usageReported || reported > 0)
  }

  /** Until it ends, an operation's entries gain exactly what its calls report. */
  lemma StepTokens<P>(s: State<P>, e: Event<P>, k: nat)
    requires WellFormed(s) && Owned(s) && e.Profiled() && k < |s.ops| && !Ends(s, e, k)
    ensures Gains(s, Step(s, e), k, ReportedBy(s, e, k))
  {
    hide OnStart, OnSpecSettled, OnCallEnd, OnToolEnd, OnError, OnEnd, WellFormed, Owned, Gains, TotalOf;
    match e
    case Start(c, info) => StartTokens(s, c, info, k);
    case CallStart(_, _) => SameEntriesGainNothing(s, Step(s, e), k);
    case ToolStart(_, _) => SameEntriesGainNothing(s, Step(s, e), k);
    case CallEnd(c, p, end) => CallEndTokens(s, c, p.value, end, k);
    case ToolEnd(c, p, tool, name, start, failure) =>
      ToolEndTokens(s, c, p.value, tool, name, start, failure, k);
    case Error(c, p, now, message) => ErrorTokens(s, c, p.value, now, message, k);
    case End(c, p, result) => OtherEndTokens(s, c, p.value, result, k);
    case SpecSettled(j, schema, name) => SpecSettledTokens(s, j, schema, name, k);
  }

  lemma SameEntriesGainNothing<P>(s: State<P>, s': State<P>, k: nat)
    requires s'.log == s.log && k < |s.ops| && k < |s'.ops| && s'.ops[k].usageReported == s.ops[k].usageReported
    ensures Gains(s, s', k, 0)
  {
  }

  lemma StartTokens<P>(s: State<P>, c: CallId, info: OperationInfo, k: nat)
    requires WellFormed(s) && k < |s.ops|
    ensures Gains(s, OnStart(s, c, info), k, 0)
  {
  }

  lemma SpecSettledTokens<P>(s: State<P>, j: nat, schema: Option<string>, name: Option<string>, k: nat)
    requires WellFormed(s) && k < |s.ops|
    ensures Gains(s, OnSpecSettled(s, j, schema, name), k, 0)
  {
    if j < |s.ops| {
      var s1 := SetOutputSpec(s, j, schema, name);
      SameTokensAddUp(s1.log, OnSpecSettled(s, j, schema, name).log, k);
    }
  }

  lemma CallEndTokens<P>(s: State<P>, c: CallId, profile: P, e: CallEndEvent, k: nat)
    requires WellFormed(s) && k < |s.ops|
    ensures Gains(s, OnCallEnd(s, c, Some(profile), e), k,
                  if OwnerOf(s, c) == Some(k) then TotalOf(UsageOf(e.usage)) else 0)
  {
    var entry := CompletedCall(c, InfoOf(s, c), StepsOf(s, c), PendingOf(s, c), e);
    CallEndAppends(s, c, profile, e);
    CallEndReports(s, c, profile, e, k);
    AppendTokens(s.log, Recorded(Call(entry), profile, OwnerOf(s, c), Completed), k);
  }

  lemma CallEndAppends<P>(s: State<P>, c: CallId, profile: P, e: CallEndEvent)
    requires WellFormed(s)
    ensures var entry := CompletedCall(c, InfoOf(s, c), StepsOf(s, c), PendingOf(s, c), e);
            OnCallEnd(s, c, Some(profile), e).log == s.log + [Recorded(Call(entry), profile, OwnerOf(s, c), Completed)]
  {
  }

  lemma CountReports<P>(s: State<P>, c: CallId, reported: bool, k: nat)
    requires WellFormed(s) && k < |s.ops|
    ensures k < |CountStep(s, c, reported).ops|
    ensures CountStep(s, c, reported).ops[k].usageReported == (s.ops[k].usageReported || (reported && OwnerOf(s, c) == Some(k)))
  {
  }

  lemma RecordKeepsReports<P>(s: State<P>, entry: Entry, profile: Option<P>, owner: Option<nat>, origin: Origin, k: nat)
    requires WellFormed(s) && k < |s.ops|
    ensures Record(s, entry, profile, owner, origin).ops[k].usageReported == s.ops[k].usageReported
  {
  }

  lemma CallEndReports<P>(s: State<P>, c: CallId, profile: P, e: CallEndEvent, k: nat)
    requires WellFormed(s) && k < |s.ops|
    ensures OnCallEnd(s, c, Some(profile), e).ops[k].usageReported
            == (s.ops[k].usageReported || (OwnerOf(s, c) == Some(k) && TotalOf(UsageOf(e.usage)) > 0))
  {
    var entry := CompletedCall(c, InfoOf(s, c), StepsOf(s, c), PendingOf(s, c), e);
    var reported := TotalOf(UsageOf(e.usage)) > 0;
    var s1 := CountStep(TakePending(s, c), c, reported);
    hide Record, CountStep, WellFormed, CompletedCall;
    CountReports(TakePending(s, c), c, reported, k);
    RecordKeepsReports(s1, Call(entry), Some(profile), OwnerOf(s, c), Completed, k);
  }

  lemma ToolEndTokens<P>(s: State<P>, c: CallId, profile: P, tool: string, name: string, start: int,
                         failure: Option<string>, k: nat)
    requires WellFormed(s) && k < |s.ops|
    ensures Gains(s, OnToolEnd(s, c, Some(profile), tool, name, start, failure), k, 0)
  {
    var startedAt := if tool in s.tools then s.tools[tool] else start;
    AppendTokens(s.log, Recorded(Tool(ToolEntry(c, tool, name, startedAt, failure)), profile, OwnerOf(s, c), ToolRun), k);
  }

  lemma ErrorTokens<P>(s: State<P>, c: CallId, profile: P, now: int, message: string, k: nat)
    requires WellFormed(s) && k < |s.ops|
    ensures Gains(s, OnError(s, c, Some(profile), now, message), k, 0)
  {
    var entry := FailedCall(c, InfoOf(s, c), StepsOf(s, c), PendingOf(s, c), now, message);
    AppendTokens(s.log, Recorded(Call(entry), profile, OwnerOf(s, c), Failed), k);
  }

  /** The end of one operation leaves the tokens of every other as they were. */
  lemma OtherEndTokens<P>(s: State<P>, c: CallId, profile: P, result: EndEvent, k: nat)
    requires WellFormed(s) && Owned(s) && k < |s.ops| && OwnerOf(s, c) != Some(k)
    ensures Gains(s, OnEnd(s, c, Some(profile), result), k, 0)
  {
    if c in s.live {
      var op := s.ops[s.live[c]];
      if op.lastCall.Some? {
        OtherFoldTokens(s, c, profile, result, k);
      } else {
        OnEndSynthesizes(s, c, profile, result);
        var call := FoldResult(op.info, op.usageReported, SynthesizedCall(c, op.info, result), result);
        AppendTokens(s.log, Recorded(Call(call), profile, Some(s.live[c]), Synthesized), k);
      }
    }
  }

  lemma OtherFoldTokens<P>(s: State<P>, c: CallId, profile: P, result: EndEvent, k: nat)
    requires WellFormed(s) && Owned(s) && k < |s.ops| && OwnerOf(s, c) != Some(k)
    requires c in s.live && s.ops[s.live[c]].lastCall.Some?
    ensures Gains(s, OnEnd(s, c, Some(profile), result), k, 0)
  {
    SameTokensAddUp(s.log, OnEnd(s, c, Some(profile), result).log, k);
  }

  /** The tokens an ended operation accounts for, from what its calls and its result reported. */
  ghost function Accounted(harness: bool, called: bool, reported: nat, result: EndEvent): nat {
    if harness && reported == 0 && TotalOf(result.totalUsage) > 0 then TotalOf(result.totalUsage)
    else if called then reported
    else TotalOf(result.usage)
  }

  /** Ending an operation brings its entries to exactly what it accounts for. */
  lemma EndTokens<P>(s: State<P>, c: CallId, profile: P, result: EndEvent)
    requires WellFormed(s) && Owned(s) && c in s.live
    requires s.ops[s.live[c]].usageReported == (OwnedTokens(s.log, s.live[c]) > 0)
    requires Unsynthesized(s.log, s.live[c])
    ensures var k := s.live[c];
            OwnedTokens(OnEnd(s, c, Some(profile), result).log, k)
            == Accounted(s.ops[k].info.harness, LastCallOf(s.log, k).Some?, OwnedTokens(s.log, k), result)
  {
    if s.ops[s.live[c]].lastCall.Some? {
      EndFoldTokens(s, c, profile, result);
    } else {
      EndSynthesizesTokens(s, c, profile, result);
    }
  }

  lemma EndFoldTokens<P>(s: State<P>, c: CallId, profile: P, result: EndEvent)
    requires WellFormed(s) && Owned(s) && c in s.live && s.ops[s.live[c]].lastCall.Some?
    requires s.ops[s.live[c]].usageReported == (OwnedTokens(s.log, s.live[c]) > 0)
    ensures var k := s.live[c];
            OwnedTokens(OnEnd(s, c, Some(profile), result).log, k)
            == Accounted(s.ops[k].info.harness, LastCallOf(s.log, k).Some?, OwnedTokens(s.log, k), result)
  {
    var k, i := s.live[c], s.ops[s.live[c]].lastCall.value;
    var s' := OnEnd(s, c, Some(profile), result);
    RewriteTokens(s.log, i, s'.log[i], k);
    TokensOfOneEntry(s.log, i, k);
  }

  lemma SynthesizedTokens(c: CallId, info: OperationInfo, usageReported: bool, result: EndEvent)
    ensures TokensOfEntry(Call(FoldResult(info, usageReported, SynthesizedCall(c, info, result), result)))
            == if info.harness && !usageReported && TotalOf(result.totalUsage) > 0 then TotalOf(result.totalUsage)
               else TotalOf(result.usage)
  {
  }

  lemma EndSynthesizesTokens<P>(s: State<P>, c: CallId, profile: P, result: EndEvent)
    requires WellFormed(s) && Owned(s) && c in s.live && s.ops[s.live[c]].lastCall.None?
    requires s.ops[s.live[c]].usageReported == (OwnedTokens(s.log, s.live[c]) > 0)
    requires Unsynthesized(s.log, s.live[c])
    ensures var k := s.live[c];
            OwnedTokens(OnEnd(s, c, Some(profile), result).log, k)
            == Accounted(s.ops[k].info.harness, LastCallOf(s.log, k).Some?, OwnedTokens(s.log, k), result)
  {
    var k, s' := s.live[c], OnEnd(s, c, Some(profile), result);
    NoTokensWithoutCalls(s.log, k);
    SynthesizedTokens(c, s.ops[k].info, s.ops[k].usageReported, result);
    OnEndSynthesizes(s, c, profile, result);
    hide OnEnd, FoldResult, SynthesizedCall, TokensOfEntry, TotalOf;
    AppendTokens(s.log, s'.log[|s.log|], k);
  }

  // ---- Whole runs ----

  lemma {:induction false} NothingBeforeStart<P>(es: seq<Event<P>>, k: nat)
    requires k >= |Run(es).ops|
    ensures Reported(es, k) == 0 && Ending(es, k) == None
    ensures forall i | 0 <= i < |Run(es).log| :: Run(es).log[i].owner != Some(k)
  {
    RunsAreOwned(es);
    if es != [] {
      NothingBeforeStart(es[..|es| - 1], k);
    }
  }

  /** An operation's entries add up to what the events of the run account for. */
  ghost predicate AccountedFor<P>(es: seq<Event<P>>, s: State<P>, k: nat)
    requires k < |s.ops|
  {
    match Ending(es, k)
    case None =>
      && OwnedTokens(s.log, k) == Reported(es, k) && Unsynthesized(s.log, k)
      && s.ops[k].usageReported == (Reported(es, k) > 0)
    case Some(result) =>
      && !IsLive(s, k) && (Reported(es, k) > 0 ==> LastCallOf(s.log, k).Some?)
      && OwnedTokens(s.log, k)
         == Accounted(s.ops[k].info.harness, LastCallOf(s.log, k).Some?, Reported(es, k), result)
  }

  lemma GainAccounts<P>(before: seq<Event<P>>, es: seq<Event<P>>, s: State<P>, s': State<P>, k: nat, reported: nat)
    requires k < |s.ops| && AccountedFor(before, s, k) && Extends(s, s') && Gains(s, s', k, reported)
    requires Owned(s) && Owned(s') && (!IsLive(s, k) ==> reported == 0)
    requires Ending(es, k) == Ending(before, k) && Reported(es, k) == Reported(before, k) + reported
    ensures AccountedFor(es, s', k)
  {
  }

  lemma EndAccounts<P>(before: seq<Event<P>>, es: seq<Event<P>>, s: State<P>, c: CallId, profile: P, result: EndEvent)
    requires WellFormed(s) && Owned(s) && c in s.live
    requires AccountedFor(before, s, s.live[c]) && Owned(OnEnd(s, c, Some(profile), result))
    requires Ending(es, s.live[c]) == Some(result) && Reported(es, s.live[c]) == Reported(before, s.live[c])
    ensures AccountedFor(es, OnEnd(s, c, Some(profile), result), s.live[c])
  {
    var k := s.live[c];
    if LastCallOf(s.log, k).None? {
      NoTokensWithoutCalls(s.log, k);
    }
    EndTokens(s, c, profile, result);
    EndKeepsLastCall(s, c, profile, result);
  }

  lemma OneMore<P>(before: seq<Event<P>>, e: Event<P>, k: nat)
    ensures var s, es := Run(before), before + [e];
            && Reported(es, k) == Reported(before, k) + ReportedBy(s, e, k)
            && Ending(es, k) == (if Ends(s, e, k) then Some(e.result) else Ending(before, k))
            && (!IsLive(s, k) ==> ReportedBy(s, e, k) == 0)
  {
    assert (before + [e])[..|before|] == before;
  }

  lemma OneMoreAccounts<P>(before: seq<Event<P>>, es: seq<Event<P>>, s: State<P>, e: Event<P>, k: nat)
    requires WellFormed(s) && Owned(s) && e.Profiled() && k < |s.ops| && AccountedFor(before, s, k) && Owned(Step(s, e))
    requires Reported(es, k) == Reported(before, k) + ReportedBy(s, e, k)
    requires Ending(es, k) == if Ends(s, e, k) then Some(e.result) else Ending(before, k)
    requires !IsLive(s, k) ==> ReportedBy(s, e, k) == 0
    ensures AccountedFor(es, Step(s, e), k)
  {
    hide OnStart, OnSpecSettled, OnCallEnd, OnToolEnd, OnError, OnEnd, WellFormed, Owned, Gains, AccountedFor, TotalOf;
    if Ends(s, e, k) {
      EndAccounts(before, es, s, e.callId, e.profile.value, e.result);
    } else {
      StepTokens(s, e, k);
      GainAccounts(before, es, s, Step(s, e), k, ReportedBy(s, e, k));
    }
  }

  lemma StepAccounts<P>(before: seq<Event<P>>, e: Event<P>, k: nat)
    requires e.Profiled() && k < |Run(before).ops| && AccountedFor(before, Run(before), k)
    ensures AccountedFor(before + [e], Step(Run(before), e), k)
  {
    hide Step, AccountedFor, Owned, ReportedBy, Ends, Extends;
    RunsAreOwned(before);
    StepKeepsOwned(Run(before), e);
    OneMore(before, e, k);
    OneMoreAccounts(before, before + [e], Run(before), e, k);
  }

  lemma EndKeepsLastCall<P>(s: State<P>, c: CallId, profile: P, result: EndEvent)
    requires WellFormed(s) && c in s.live
    ensures var s' := OnEnd(s, c, Some(profile), result);
            s'.ops == s.ops && !IsLive(s', s.live[c])
  {
    if s.ops[s.live[c]].lastCall.None? {
      OnEndSynthesizes(s, c, profile, result);
    }
  }

  lemma {:induction false} RunsAreAccountedFor<P>(es: seq<Event<P>>, k: nat)
    requires AllProfiled(es) && k < |Run(es).ops|
    ensures AccountedFor(es, Run(es), k)
  {
    var before, e := es[..|es| - 1], es[|es| - 1];
    assert es == before + [e];
    if k < |Run(before).ops| {
      RunsAreAccountedFor(before, k);
      StepAccounts(before, e, k);
    } else {
      NothingBeforeStart(before, k);
      StartAccounts(before, e, k);
    }
  }

  lemma StartAccounts<P>(before: seq<Event<P>>, e: Event<P>, k: nat)
    requires |Run(before).ops| <= k < |Step(Run(before), e).ops|
    requires Reported(before, k) == 0 && Ending(before, k) == None
    requires forall i | 0 <= i < |Run(before).log| :: Run(before).log[i].owner != Some(k)
    ensures AccountedFor(before + [e], Step(Run(before), e), k)
  {
    assert (before + [e])[..|before|] == before;
    OnlyStartsAddOperations(Run(before), e);
    NoTokensWithoutCalls(Run(before).log, k);
  }

  lemma OnlyStartsAddOperations<P>(s: State<P>, e: Event<P>)
    requires WellFormed(s)
    ensures e.Start? ==> Step(s, e) == OnStart(s, e.callId, e.info)
    ensures !e.Start? ==> |Step(s, e).ops| == |s.ops|
  {
  }

  /** What one operation adds to the collector's total, read off the events of a run. */
  ghost function Contribution<P>(es: seq<Event<P>>, k: nat): nat
    requires k < |Run(es).ops|
  {
    var s, result := Run(es), Ending(es, k);
    var harness, called := s.ops[k].info.harness, LastCallOf(s.log, k).Some?;
    var turn := if result.Some? then TotalOf(result.value.totalUsage) else 0;
    if result.Some? && harness && called then
      if Reported(es, k) > 0 then Reported(es, k) else turn
    else if result.None? || called then
      Reported(es, k)
    else if harness && turn > 0 then
      turn
    else
      TotalOf(result.value.usage)
  }

  /**
   * Over every profiled run: an ended harness operation with a recorded call adds to the total the
   * sum its calls reported when that sum is positive, and otherwise the turn's reported total; any
   * other operation that made a call adds what its calls reported, and one that made none the
   * usage of its result.
   */
  lemma TokensAreCountedOnce<P>(es: seq<Event<P>>, k: nat)
    requires AllProfiled(es) && k < |Run(es).ops|
    ensures OwnedTokens(Run(es).log, k) == Contribution(es, k)
  {
    RunsAreAccountedFor(es, k);
  }

  // ---- The total of one profile ----

  /** The tokens of the entries recorded into one profile. */
  ghost function ProfileTokens<P>(log: seq<Recorded<P>>, p: P): nat {
    if log == [] then 0 else
    var r := log[|log| - 1];
    ProfileTokens(log[..|log| - 1], p) + if r.profile == p then TokensOfEntry(r.entry) else 0
  }

  /** The part of it that belongs to no operation. */
  ghost function OrphanTokens<P>(log: seq<Recorded<P>>, p: P): nat {
    if log == [] then 0 else
    var r := log[|log| - 1];
    OrphanTokens(log[..|log| - 1], p) + if r.profile == p && r.owner.None? then TokensOfEntry(r.entry) else 0
  }

  /** The tokens of the first `n` operations, those that ran in profile `p`. */
  ghost function TokensOfOperations<P>(log: seq<Recorded<P>>, home: seq<P>, p: P, n: nat): nat
    requires n <= |home|
  {
    if n == 0 then 0
    else TokensOfOperations(log, home, p, n - 1) + if home[n - 1] == p then OwnedTokens(log, n - 1) else 0
  }

  ghost function Contributions<P>(es: seq<Event<P>>, home: seq<P>, p: P, n: nat): nat
    requires n <= |home| && n <= |Run(es).ops|
  {
    if n == 0 then 0
    else Contributions(es, home, p, n - 1) + if home[n - 1] == p then Contribution(es, n - 1) else 0
  }

  /** Each operation ran in one profile: `home[k]` is that of operation `k`. */
  ghost predicate RanAtHome<P>(log: seq<Recorded<P>>, home: seq<P>) {
    forall i | 0 <= i < |log| && log[i].owner.Some? ::
      log[i].owner.value < |home| && log[i].profile == home[log[i].owner.value]
  }

  lemma {:induction false} TokensOfOperationsGrow<P>(log: seq<Recorded<P>>, home: seq<P>, p: P, n: nat)
    requires log != [] && n <= |home|
    ensures var r := log[|log| - 1];
            TokensOfOperations(log, home, p, n) == TokensOfOperations(log[..|log| - 1], home, p, n)
            + if r.owner.Some? && r.owner.value < n && home[r.owner.value] == p then TokensOfEntry(r.entry) else 0
  {
    if n > 0 { TokensOfOperationsGrow(log, home, p, n - 1); }
  }

  lemma {:induction false} NoEntriesNoTokens<P>(home: seq<P>, p: P, n: nat)
    requires n <= |home|
    ensures TokensOfOperations<P>([], home, p, n) == 0
  {
    if n > 0 { NoEntriesNoTokens(home, p, n - 1); }
  }

  lemma {:induction false} ProfileTokensSplit<P>(log: seq<Recorded<P>>, home: seq<P>, p: P)
    requires RanAtHome(log, home)
    ensures ProfileTokens(log, p) == TokensOfOperations(log, home, p, |home|) + OrphanTokens(log, p)
  {
    if log == [] {
      NoEntriesNoTokens(home, p, |home|);
    } else {
      ProfileTokensSplit(log[..|log| - 1], home, p);
      TokensOfOperationsGrow(log, home, p, |home|);
    }
  }

  lemma {:induction false} OperationsContribute<P>(es: seq<Event<P>>, home: seq<P>, p: P, n: nat)
    requires AllProfiled(es) && n <= |home| && n <= |Run(es).ops|
    ensures TokensOfOperations(Run(es).log, home, p, n) == Contributions(es, home, p, n)
  {
    hide Run, Contribution, OwnedTokens, AllProfiled;
    if n > 0 {
      OperationsContribute(es, home, p, n - 1);
      TokensAreCountedOnce(es, n - 1);
    }
  }

  /**
   * The total a profile shows is the sum of what its operations contribute, each counted once,
   * plus the calls recorded outside any operation.
   */
  lemma ProfileTotalIsConserved<P>(es: seq<Event<P>>, home: seq<P>, p: P)
    requires AllProfiled(es) && |home| == |Run(es).ops| && RanAtHome(Run(es).log, home)
    ensures ProfileTokens(Run(es).log, p) == Contributions(es, home, p, |home|) + OrphanTokens(Run(es).log, p)
  {
    ProfileTokensSplit(Run(es).log, home, p);
    OperationsContribute(es, home, p, |home|);
  }
}
