/** Watching: analyze again and again until the context ends, then diff the last sample
    against the first. */
module Watch {
  import opened Domain
  import opened Findings
  import opened Diff

  /** A sample the caller can keep; the watch writes its diff when it ends. */
  class Sample {
    const report: HealthReport
    var diff: Option<HealthDiff>

    constructor (report: HealthReport)
      ensures this.report == report && diff == None
    {
      this.report := report;
      this.diff := None;
    }
  }

  datatype CtxError = Canceled | DeadlineExceeded | OtherCtxError

  /** One call of Analyze: a sample, or an error that may stem from the context. */
  datatype Analysis = Analyzed(sample: Sample) | CollectError(fromContext: bool)

  /** What the select statement wakes up to. */
  datatype Event = ContextDone(err: CtxError) | Tick(analysis: Analysis, emitOK: bool)

  datatype WatchError = BadInterval | CollectFailed | EmitFailed | ContextFailed

  datatype Outcome = Running | Ended(last: Option<Sample>, err: Option<WatchError>)

  // ----- a run as a function of its events

  /** The event ends the watch. */
  predicate Stops(e: Event, emitting: bool) {
    match e
    case ContextDone(_) => true
    case Tick(CollectError(_), _) => true
    case Tick(Analyzed(_), emitOK) => emitting && !emitOK
  }

  /** The position of the first event that ends the watch, if any. */
  function StopAt(events: seq<Event>, emitting: bool): (k: nat)
    ensures k <= |events|
    ensures k < |events| ==> Stops(events[k], emitting)
    ensures forall j :: 0 <= j < k ==> !Stops(events[j], emitting)
  {
    if events == [] || Stops(events[0], emitting) then 0 else 1 + StopAt(events[1..], emitting)
  }

  /** The samples analyzed by the events up to and including the one that stops. */
  function SamplesOf(events: seq<Event>, emitting: bool): seq<Sample> {
    if events == [] then []
    else
      var e := events[0];
      (if e.Tick? && e.analysis.Analyzed? then [e.analysis.sample] else []) +
      (if Stops(e, emitting) then [] else SamplesOf(events[1..], emitting))
  }

  /** The last sample analyzed, the first one if no tick succeeded. */
  function LastOf(first: Sample, events: seq<Event>, emitting: bool): Sample {
    var samples := [first] + SamplesOf(events, emitting);
    samples[|samples| - 1]
  }

  /** How the watch ends, last being its last sample. */
  function EndOf(last: Sample, events: seq<Event>, emitting: bool): Outcome {
    var k := StopAt(events, emitting);
    if k == |events| then Running
    else match events[k]
      case ContextDone(err) => Ended(Some(last), if err == OtherCtxError then Some(ContextFailed) else None)
      case Tick(CollectError(fromContext), _) => Ended(Some(last), if fromContext then None else Some(CollectFailed))
      case Tick(Analyzed(_), _) => Ended(Some(last), Some(EmitFailed))
  }

  /** The diff is written when the context ends, by itself or through a collection. */
  predicate WritesDiff(events: seq<Event>, emitting: bool) {
    var k := StopAt(events, emitting);
    k < |events| && (events[k].ContextDone? || (events[k].analysis.CollectError? && events[k].analysis.fromContext))
  }

  /** The samples a watch writes to: its last one, if it writes a diff at all. */
  function Written(first: Sample, events: seq<Event>, emitting: bool): set<Sample> {
    if WritesDiff(events, emitting) then {LastOf(first, events, emitting)} else {}
  }

  /** The event loop up to the event that ends it: analyzes, emits and remembers the
      last sample, and touches no sample. */
  method RunLoop(first: Sample, emitting: bool, events: seq<Event>)
    returns (stop: nat, last: Sample, emitted: seq<Sample>)
    ensures stop == StopAt(events, emitting)
    ensures last == LastOf(first, events, emitting)
    ensures emitted == if emitting then [first] + SamplesOf(events, emitting) else []
  {
    last := first;
    emitted := if emitting then [first] else [];
    ghost var all := [first] + SamplesOf(events, emitting);
    ghost var analyzed := [first];
    for i := 0 to |events|
      invariant forall j :: 0 <= j < i ==> !Stops(events[j], emitting)
      invariant all == analyzed + SamplesOf(events[i..], emitting)
      invariant analyzed != [] && last == analyzed[|analyzed| - 1]
      invariant emitted == if emitting then analyzed else []
    {
      var e := events[i];
      SamplesStep(all, analyzed, events, emitting, i);
      StopAtIs(events, emitting, i);
      if e.ContextDone? || e.analysis.CollectError? {
        return i, last, emitted;
      }
      last := e.analysis.sample;
      analyzed := analyzed + [last];
      if emitting {
        emitted := emitted + [last];
        if !e.emitOK {
          return i, last, emitted;
        }
      }
    }
    StopAtIs(events, emitting, |events|);
    return |events|, last, emitted;
  }

  /** One event moves at most one sample from those to come to those analyzed. */
  lemma SamplesStep(all: seq<Sample>, analyzed: seq<Sample>, events: seq<Event>, emitting: bool, i: nat)
    requires i < |events| && all == analyzed + SamplesOf(events[i..], emitting)
    ensures var e := events[i];
            if !e.Tick? || e.analysis.CollectError? then all == analyzed
            else if Stops(e, emitting) then all == analyzed + [e.analysis.sample]
            else all == analyzed + [e.analysis.sample] + SamplesOf(events[i + 1..], emitting)
  {
    assert events[i..][0] == events[i] && events[i..][1..] == events[i + 1..];
  }

  /** What a watch that got its first sample returns and leaves behind: the emitted
      reports are exactly the samples analyzed, in order; it returns the last of them;
      and on an orderly end that sample carries the diff against the first. */
  method WatchFrom(first: Sample, emitting: bool, events: seq<Event>) returns (outcome: Outcome, emitted: seq<Sample>)
    modifies Written(first, events, emitting)`diff
    ensures emitted == if emitting then [first] + SamplesOf(events, emitting) else []
    ensures outcome == EndOf(LastOf(first, events, emitting), events, emitting)
    ensures WritesDiff(events, emitting) ==>
              var last := LastOf(first, events, emitting);
              last.diff == Some(DiffOf("watch start", first.report, last.report))
  {
    var stop, last;
    stop, last, emitted := RunLoop(first, emitting, events);
    if stop == |events| {
      return Running, emitted;
    }
    match events[stop] {
      case ContextDone(err) =>
        var diff := DiffReports("watch start", Some(first.report), Some(last.report));
        last.diff := diff;
        return Ended(Some(last), if err == OtherCtxError then Some(ContextFailed) else None), emitted;
      case Tick(CollectError(fromContext), _) =>
        if fromContext {
          var diff := DiffReports("watch start", Some(first.report), Some(last.report));
          last.diff := diff;
          return Ended(Some(last), None), emitted;
        }
        return Ended(Some(last), Some(CollectFailed)), emitted;
      case Tick(Analyzed(_), _) =>
        return Ended(Some(last), Some(EmitFailed)), emitted;
    }
  }

  /** The first sample is analyzed and emitted before the watch starts. */
  predicate Started(interval: int, first: Analysis, firstEmitOK: bool, emitting: bool) {
    interval > 0 && first.Analyzed? && (emitting ==> firstEmitOK)
  }

  /** The diff a watch writes carries the first sample's findings and leader table to the
      last one's, whatever map holds the table. */
  ghost predicate PatchesFirst(diff: HealthDiff, first: Sample, last: Sample) {
    forall table :: Tabulates(table, first.report.tablets.perNode) ==> Carries(diff, first.report, table, last.report)
  }

  /** Whoever gets a sample and no error gets, with it, the patch from the first one. */
  method WatchAnalyze(interval: int, first: Analysis, firstEmitOK: bool, emitting: bool, events: seq<Event>)
    returns (outcome: Outcome, emitted: seq<Sample>)
    modifies (if Started(interval, first, firstEmitOK, emitting)
              then Written(first.sample, events, emitting) else {})`diff
    ensures interval <= 0 ==> outcome == Ended(None, Some(BadInterval)) && emitted == []
    ensures interval > 0 && first.CollectError? ==> outcome == Ended(None, Some(CollectFailed)) && emitted == []
    ensures interval > 0 && first.Analyzed? && emitting && !firstEmitOK ==>
              outcome == Ended(None, Some(EmitFailed)) && emitted == [first.sample]
    ensures Started(interval, first, firstEmitOK, emitting) ==>
              && emitted == (if emitting then [first.sample] + SamplesOf(events, emitting) else [])
              && outcome == EndOf(LastOf(first.sample, events, emitting), events, emitting)
    ensures Started(interval, first, firstEmitOK, emitting) && WritesDiff(events, emitting) ==>
              var last := LastOf(first.sample, events, emitting);
              last.diff == Some(DiffOf("watch start", first.sample.report, last.report))
    ensures outcome.Ended? && outcome.err.None? ==>
              && first.Analyzed? && outcome.last.Some? && outcome.last.value.diff.Some?
              && PatchesFirst(outcome.last.value.diff.value, first.sample, outcome.last.value)
  {
    emitted := [];
    if interval <= 0 {
      return Ended(None, Some(BadInterval)), emitted;
    }
    if first.CollectError? {
      return Ended(None, Some(CollectFailed)), emitted;
    }
    if emitting {
      emitted := [first.sample];
      if !firstEmitOK {
        return Ended(None, Some(EmitFailed)), emitted;
      }
    }
    outcome, emitted := WatchFrom(first.sample, emitting, events);
    if outcome.Ended? && outcome.err.None? {
      OrderlyRun(first.sample, events, emitting);
    }
  }

  lemma StopAtIs(events: seq<Event>, emitting: bool, i: nat)
    requires i <= |events| && forall j :: 0 <= j < i ==> !Stops(events[j], emitting)
    ensures i < |events| && Stops(events[i], emitting) ==> StopAt(events, emitting) == i
    ensures i == |events| ==> StopAt(events, emitting) == i
  {
  }

  /** A watch reports as it goes: what it has emitted so far stays, whatever follows. */
  lemma {:induction false} EmittedGrows(events: seq<Event>, more: seq<Event>, emitting: bool)
    ensures SamplesOf(events, emitting) <= SamplesOf(events + more, emitting)
    ensures StopAt(events, emitting) < |events| ==>
              SamplesOf(events + more, emitting) == SamplesOf(events, emitting)
              && StopAt(events + more, emitting) == StopAt(events, emitting)
  {
    if events != [] {
      assert (events + more)[0] == events[0] && (events + more)[1..] == events[1..] + more;
      EmittedGrows(events[1..], more, emitting);
    }
  }

  /** The last sample is the one of the last event that analyzed one: the event that ended
      the watch if that is where emitting failed, else the one before the end, and the
      first sample if there is none. */
  lemma {:induction false} LastSampleIs(first: Sample, events: seq<Event>, emitting: bool)
    ensures var k := StopAt(events, emitting);
            && (forall j :: 0 <= j < k ==> events[j].Tick? && events[j].analysis.Analyzed?)
            && LastOf(first, events, emitting) ==
               (if k < |events| && events[k].Tick? && events[k].analysis.Analyzed? then events[k].analysis.sample
                else if k > 0 then events[k - 1].analysis.sample
                else first)
  {
    if events != [] && !Stops(events[0], emitting) {
      LastSampleIs(events[0].analysis.sample, events[1..], emitting);
    }
  }

  /** The tick analyzed a sample and, if the watch emits, emitted it. */
  predicate Succeeds(e: Event, emitting: bool) {
    e.Tick? && e.analysis.Analyzed? && (emitting ==> e.emitOK)
  }

  /** The watch ends at the first event that is not a success; it still counts the sample
      of a tick that only failed to emit; and the samples are those of the ticks, in order. */
  lemma {:induction false} RunSpelledOut(events: seq<Event>, emitting: bool)
    ensures var k, samples := StopAt(events, emitting), SamplesOf(events, emitting);
            && (forall j :: 0 <= j < k ==> Succeeds(events[j], emitting))
            && (k < |events| ==> !Succeeds(events[k], emitting))
            && |samples| == (if k < |events| && events[k].Tick? && events[k].analysis.Analyzed? then k + 1 else k)
            && forall j :: 0 <= j < |samples| ==>
                 events[j].Tick? && events[j].analysis.Analyzed? && samples[j] == events[j].analysis.sample
  {
    if events != [] && !Stops(events[0], emitting) {
      RunSpelledOut(events[1..], emitting);
      var rest, k := SamplesOf(events[1..], emitting), StopAt(events[1..], emitting);
      assert SamplesOf(events, emitting) == [events[0].analysis.sample] + rest;
      assert k < |events[1..]| ==> events[1..][k] == events[k + 1];
      assert forall j :: 0 <= j < |rest| ==> events[1..][j] == events[j + 1];
      assert forall j :: 1 <= j < k + 1 ==> events[j] == events[1..][j - 1];
    }
  }

  /** How the watch ends, by the event k it ends at: without an error exactly if the context
      is cancelled or times out, also during a collection; and a sample is always returned. */
  lemma EndSpelledOut(last: Sample, events: seq<Event>, emitting: bool, k: nat)
    requires k == StopAt(events, emitting)
    ensures k == |events| <==> EndOf(last, events, emitting) == Running
    ensures k < |events| ==> EndOf(last, events, emitting).Ended? && EndOf(last, events, emitting).last == Some(last)
    ensures k < |events| && events[k].ContextDone? ==>
              (EndOf(last, events, emitting).err == None <==> events[k].err in {Canceled, DeadlineExceeded})
              && (EndOf(last, events, emitting).err == Some(ContextFailed) <==> events[k].err == OtherCtxError)
    ensures k < |events| && events[k].Tick? && events[k].analysis.CollectError? ==>
              (EndOf(last, events, emitting).err == None <==> events[k].analysis.fromContext)
              && (EndOf(last, events, emitting).err == Some(CollectFailed) <==> !events[k].analysis.fromContext)
    ensures k < |events| && events[k].Tick? && events[k].analysis.Analyzed? ==>
              EndOf(last, events, emitting).err == Some(EmitFailed)
    ensures WritesDiff(events, emitting) <==>
              k < |events| && (events[k].ContextDone?
                               || (events[k].analysis.CollectError? && events[k].analysis.fromContext))
  {
  }

  lemma DiffPatches(baseline: string, first: Sample, last: Sample)
    ensures PatchesFirst(DiffOf(baseline, first.report, last.report), first, last)
  {
    forall table | Tabulates(table, first.report.tablets.perNode)
      ensures Carries(DiffOf(baseline, first.report, last.report), first.report, table, last.report)
    {
      DiffIsPatch(baseline, first.report, last.report, table);
    }
  }

  predicate ListsNothing(diff: HealthDiff) {
    diff.findingsAdded == [] && diff.findingsRemoved == [] && diff.leaders == []
  }

  lemma SameReportListsNothing(baseline: string, report: HealthReport)
    ensures ListsNothing(DiffOf(baseline, report, report))
  {
    DiffEmptyIff(baseline, report, report);
  }

  /** Every watch that ends without an error: the context was cancelled or timed out, or
      interrupted a collection; all the events before were ticks that succeeded; it
      returns the sample of the last of them, with a diff that patches the first sample
      into it; and if no tick succeeded it returns the first sample, and the diff lists
      nothing. */
  lemma OrderlyRun(first: Sample, events: seq<Event>, emitting: bool)
    requires EndOf(LastOf(first, events, emitting), events, emitting).Ended?
    requires EndOf(LastOf(first, events, emitting), events, emitting).err.None?
    ensures var k, last := StopAt(events, emitting), LastOf(first, events, emitting);
            var diff := DiffOf("watch start", first.report, last.report);
            && EndOf(last, events, emitting) == Ended(Some(last), None)
            && WritesDiff(events, emitting) && events[k] != ContextDone(OtherCtxError)
            && (forall j :: 0 <= j < k ==> events[j].Tick? && events[j].analysis.Analyzed?)
            && last == (if k > 0 then events[k - 1].analysis.sample else first)
            && PatchesFirst(diff, first, last)
            && (k == 0 ==> ListsNothing(diff))
  {
    LastSampleIs(first, events, emitting);
    DiffPatches("watch start", first, LastOf(first, events, emitting));
    SameReportListsNothing("watch start", first.report);
  }
}
