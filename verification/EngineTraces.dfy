/** The grammar of a finished job's events and the bracketing of its runner calls. */
module EngineTraces {
  import opened Names
  import opened Model
  import opened Engine
  import opened EngineLocal
  import opened EngineInvariant
  import opened EngineSafety

  datatype Kind = EventKind | CallKind | ChannelKind

  function KindOf(a: Act): Kind {
    match a
    case SetupCall => CallKind
    case RunStepCall(_) => CallKind
    case TeardownCall => CallKind
    case DoneClosed => ChannelKind
    case _ => EventKind
  }

  /** The acts of one kind, in order. */
  function Only(kind: Kind, s: seq<Act>): seq<Act> {
    if s == [] then []
    else Only(kind, s[..|s| - 1]) + if KindOf(s[|s| - 1]) == kind then [s[|s| - 1]] else []
  }

  lemma {:induction false} OnlyAppend(kind: Kind, s: seq<Act>, t: seq<Act>)
    ensures Only(kind, s + t) == Only(kind, s) + Only(kind, t)
  {
    if t == [] {
      assert s + t == s;
    } else {
      var k := |t| - 1;
      assert (s + t)[..|s + t| - 1] == s + t[..k];
      OnlyAppend(kind, s, t[..k]);
    }
  }

  lemma OnlyOne(kind: Kind, a: Act)
    ensures Only(kind, [a]) == if KindOf(a) == kind then [a] else []
  {
  }

  lemma {:induction false} OnlyLogs(i: nat, log: seq<Bytes>)
    ensures Only(EventKind, Logs(i, log)) == Logs(i, log)
    ensures Only(CallKind, Logs(i, log)) == [] && Only(ChannelKind, Logs(i, log)) == []
  {
    if log == [] {
    } else {
      var k := |log| - 1;
      assert Logs(i, log) == Logs(i, log[..k]) + [StepLog(i, log[k])];
      OnlyLogs(i, log[..k]);
      OnlyAdvance(EventKind, Logs(i, log[..k]), StepLog(i, log[k]));
      OnlyAdvance(CallKind, Logs(i, log[..k]), StepLog(i, log[k]));
      OnlyAdvance(ChannelKind, Logs(i, log[..k]), StepLog(i, log[k]));
    }
  }

  lemma OnlyAdvance(kind: Kind, s: seq<Act>, a: Act)
    ensures Only(kind, s + [a]) == Only(kind, s) + if KindOf(a) == kind then [a] else []
  {
    assert (s + [a])[..|s|] == s;
  }

  /** StepStarted, the logs, StepFinished: the events of one step. */
  function EventBlock(i: nat, run: StepRun): seq<Act> {
    [StepStarted(i)] + Logs(i, run.log)
    + [StepFinished(i, if run.outcome == Exit(0) then Success else Failed,
                    if run.outcome.Exit? then run.outcome.code else -1)]
  }

  function EventBlocks(done: seq<StepRun>): seq<Act> {
    if done == [] then []
    else EventBlocks(done[..|done| - 1]) + EventBlock(|done| - 1, done[|done| - 1])
  }

  function RunCalls(n: nat): (r: seq<Act>)
    ensures |r| == n && forall i :: 0 <= i < n ==> r[i] == RunStepCall(i)
  {
    seq(n, i requires 0 <= i < n => RunStepCall(i))
  }

  lemma OnlyParts(kind: Kind, a: Act, b: Act, logs: seq<Act>, d: Act)
    ensures Only(kind, [a, b] + logs + [d]) == Only(kind, [a, b]) + Only(kind, logs) + Only(kind, [d])
  {
    hide Only;
    OnlyAppend(kind, [a, b] + logs, [d]);
    OnlyAppend(kind, [a, b], logs);
  }

  lemma OnlyBlock(i: nat, run: StepRun)
    ensures Only(EventKind, StepBlock(i, run)) == EventBlock(i, run)
    ensures Only(CallKind, StepBlock(i, run)) == [RunStepCall(i)]
    ensures Only(ChannelKind, StepBlock(i, run)) == []
  {
    hide Only, Logs;
    var logs, done := Logs(i, run.log), StepFinished(i, StatusOf(Ran(run.outcome)), ExitCodeOf(run.outcome));
    OnlyLogs(i, run.log);
    OnlyParts(EventKind, StepStarted(i), RunStepCall(i), logs, done);
    OnlyPair(EventKind, StepStarted(i), RunStepCall(i));
    OnlyOne(EventKind, done);
    OnlyParts(CallKind, StepStarted(i), RunStepCall(i), logs, done);
    OnlyPair(CallKind, StepStarted(i), RunStepCall(i));
    OnlyOne(CallKind, done);
    OnlyParts(ChannelKind, StepStarted(i), RunStepCall(i), logs, done);
    OnlyPair(ChannelKind, StepStarted(i), RunStepCall(i));
    OnlyOne(ChannelKind, done);
  }

  lemma {:induction false} OnlyBlocks(done: seq<StepRun>)
    ensures Only(EventKind, Blocks(done)) == EventBlocks(done)
    ensures Only(CallKind, Blocks(done)) == RunCalls(|done|)
    ensures Only(ChannelKind, Blocks(done)) == []
  {
    hide Only, StepBlock, EventBlock;
    if done == [] {
      OnlyNothing();
    } else {
      var k := |done| - 1;
      OnlyBlocks(done[..k]);
      OnlyBlock(k, done[k]);
      forall kind: Kind { OnlyAppend(kind, Blocks(done[..k]), StepBlock(k, done[k])); }
      assert RunCalls(|done|) == RunCalls(k) + [RunStepCall(k)];
    }
  }

  lemma OnlyNothing()
    ensures forall kind: Kind :: Only(kind, []) == []
  {
  }

  lemma OnlyPair(kind: Kind, a: Act, b: Act)
    ensures Only(kind, [a, b])
         == (if KindOf(a) == kind then [a] else []) + (if KindOf(b) == kind then [b] else [])
  {
    OnlyOne(kind, a);
    OnlyAdvance(kind, [a], b);
    assert [a, b] == [a] + [b];
  }

  lemma OnlyStory(kind: Kind, r: JobRec)
    requires r.status == Success || r.status == Failed
    ensures !r.hasError || r.status == Success ==>
      Only(kind, Story(r))
         == Only(kind, [JobStarted, SetupCall]) + Only(kind, Blocks(r.done))
            + Only(kind, [JobFinished(r.status), TeardownCall])
    ensures r.hasError && r.status == Failed ==>
      Only(kind, Story(r)) == Only(kind, [JobStarted, SetupCall]) + Only(kind, [TeardownCall, JobFinished(Failed)])
  {
    hide Only, Blocks;
    OnlyAppend(kind, [JobStarted, SetupCall] + Blocks(r.done), [JobFinished(r.status), TeardownCall]);
    OnlyAppend(kind, [JobStarted, SetupCall], Blocks(r.done));
    OnlyAppend(kind, [JobStarted, SetupCall], [TeardownCall, JobFinished(Failed)]);
    assert [JobStarted, SetupCall] + [TeardownCall, JobFinished(Failed)]
         == [JobStarted, SetupCall, TeardownCall, JobFinished(Failed)];
  }

  /** A job that has ended, as its story and its record tell it. */
  lemma EndedStory(c: Config, s: State, j: Name)
    requires WellFormed(c) && Reachable(c, s) && Closed(s, j)
    ensures Project(s.trace, j) == Story(s.jobs[j]) + [DoneClosed]
    ensures s.jobs[j].status == Success || s.jobs[j].status == Failed
         || s.jobs[j].status == Skipped || s.jobs[j].status == Canceled
    ensures s.jobs[j].hasError ==> s.jobs[j].done == [] && s.jobs[j].status == Failed
    ensures s.jobs[j].status == Skipped || s.jobs[j].status == Canceled ==> s.jobs[j].done == []
    ensures j in c.steps && |s.jobs[j].done| <= c.steps[j]
    ensures forall k :: 0 <= k < |s.jobs[j].done| - 1 ==> s.jobs[j].done[k].outcome == Exit(0)
    ensures s.jobs[j].status == Success ==>
      |s.jobs[j].done| == c.steps[j] && forall k :: 0 <= k < |s.jobs[j].done| ==> s.jobs[j].done[k].outcome == Exit(0)
  {
    hide WellFormed, Inv, Reachable, Story, Project;
    InvReachable(c, s);
    StoryOfClosed(c, s, j);
    EndedAs(c, s, j);
    DoneOfEnded(c.steps[j], j, s.jobs[j]);
  }

  /** Every RunStep call directly follows the StepStarted of its step. */
  ghost predicate CallsFollowStarts(acts: seq<Act>) {
    forall p :: 0 <= p < |acts| && acts[p].RunStepCall? ==> p > 0 && acts[p - 1] == StepStarted(acts[p].step)
  }

  /** Everything an ended job did, in order: nothing but the close if it was canceled before it started, a
      JobSkipped before it if it was skipped; after a failed Setup the Teardown comes before JobFinished,
      and after the steps it comes behind it. */
  ghost predicate InJobOrder(r: JobRec, acts: seq<Act>) {
    match r.status
    case Canceled => acts == [DoneClosed]
    case Skipped => acts == [JobSkipped, DoneClosed]
    case _ =>
      if r.hasError then acts == [JobStarted, SetupCall, TeardownCall, JobFinished(Failed), DoneClosed]
      else
        && |acts| >= 5 && acts[..2] == [JobStarted, SetupCall]
        && acts[|acts| - 3..] == [JobFinished(r.status), TeardownCall, DoneClosed]
        && CallsFollowStarts(acts)
        && forall p :: 2 <= p < |acts| - 3 ==>
             acts[p].StepStarted? || acts[p].RunStepCall? || acts[p].StepLog? || acts[p].StepFinished?
  }

  lemma {:induction false} BlocksInOrder(done: seq<StepRun>)
    ensures CallsFollowStarts(Blocks(done))
    ensures forall a :: a in Blocks(done) ==> a.StepStarted? || a.RunStepCall? || a.StepLog? || a.StepFinished?
  {
    if done == [] {
    } else {
      var k := |done| - 1;
      BlocksInOrder(done[..k]);
      BlockInOrder(k, done[k]);
      FollowAppend(Blocks(done[..k]), StepBlock(k, done[k]));
    }
  }

  lemma BlockInOrder(i: nat, run: StepRun)
    ensures CallsFollowStarts(StepBlock(i, run))
    ensures forall a :: a in StepBlock(i, run) ==> a.StepStarted? || a.RunStepCall? || a.StepLog? || a.StepFinished?
  {
  }

  lemma FollowAppend(a: seq<Act>, b: seq<Act>)
    requires CallsFollowStarts(a) && CallsFollowStarts(b)
    ensures CallsFollowStarts(a + b)
  {
    forall p | 0 <= p < |a + b| && (a + b)[p].RunStepCall?
      ensures p > 0 && (a + b)[p - 1] == StepStarted((a + b)[p].step)
    {
      if p >= |a| { assert b[p - |a|].RunStepCall? && b[p - |a| - 1] == StepStarted(b[p - |a|].step); }
    }
  }

  lemma RanInOrder(r: JobRec)
    requires (r.status == Success || r.status == Failed) && !r.hasError
    ensures InJobOrder(r, Story(r) + [DoneClosed])
  {
    hide Blocks;
    var front, blocks := [JobStarted, SetupCall], Blocks(r.done);
    var back := [JobFinished(r.status), TeardownCall, DoneClosed];
    BlocksInOrder(r.done);
    FollowAppend(front, blocks);
    FollowAppend(front + blocks, back);
    var acts := front + blocks + back;
    assert Story(r) + [DoneClosed] == acts;
    forall p | 2 <= p < |acts| - 3
      ensures acts[p].StepStarted? || acts[p].RunStepCall? || acts[p].StepLog? || acts[p].StepFinished?
    {
      assert acts[p] == blocks[p - 2];
    }
  }

  /** In every run an ended job has done its acts in that order. */
  lemma ActsInOrder(c: Config, s: State, j: Name)
    requires WellFormed(c) && Reachable(c, s) && Closed(s, j)
    ensures InJobOrder(s.jobs[j], Project(s.trace, j))
  {
    hide WellFormed, Reachable, Project, CallsFollowStarts;
    var r := s.jobs[j];
    EndedStory(c, s, j);
    if (r.status == Success || r.status == Failed) && !r.hasError {
      hide Story, InJobOrder;
      RanInOrder(r);
    }
  }

  lemma DoneOfEnded(n: nat, j: Name, r: JobRec)
    requires EndedWell(n, j, r)
    ensures r.hasError ==> r.done == [] && r.status == Failed
    ensures r.status == Skipped || r.status == Canceled ==> r.done == []
    ensures |r.done| <= n
    ensures forall k :: 0 <= k < |r.done| - 1 ==> r.done[k].outcome == Exit(0)
    ensures r.status == Success ==> |r.done| == n && forall k :: 0 <= k < |r.done| ==> r.done[k].outcome == Exit(0)
  {
    hide StatusLine;
    if r.status == Success || r.status == Failed {
      forall k | 0 <= k < |r.done|
        ensures k < |r.results| && (StatusOf(r.results[k]) == Success <==> r.done[k].outcome == Exit(0)) {
        assert r.results[k] == Ran(r.done[k].outcome);
      }
      forall k | 0 <= k < |r.done| - 1 ensures r.done[k].outcome == Exit(0) {
        assert r.results[..|r.results| - 1][k] == r.results[k];
      }
      if r.status == Success { InterruptedIsNotGreen(r.done); }
    }
  }

  lemma InterruptedIsNotGreen(done: seq<StepRun>)
    ensures !Green(ResultsOf(done) + [Interrupted])
  {
    var results := ResultsOf(done) + [Interrupted];
    assert StatusOf(results[|done|]) == Canceled;
  }

  /** The events of a job that has ended: none if it was canceled before it started, one JobSkipped
      if skipped, else JobStarted, one block per called step in step order, and JobFinished. */
  function EventWord(r: JobRec): seq<Act> {
    match r.status
    case Canceled => []
    case Skipped => [JobSkipped]
    case _ => [JobStarted] + EventBlocks(r.done) + [JobFinished(r.status)]
  }

  /** Its runner calls: none, or one Setup, RunStep for the called steps in order, one Teardown. */
  function CallWord(r: JobRec): seq<Act> {
    match r.status
    case Canceled => []
    case Skipped => []
    case _ => [SetupCall] + RunCalls(|r.done|) + [TeardownCall]
  }

  /** The shape of a job that went through executeJob. */
  ghost predicate Worked(r: JobRec) {
    (r.status == Success || r.status == Failed) && (r.hasError ==> r.done == [] && r.status == Failed)
  }

  lemma SetupFailedEvents(r: JobRec)
    requires r.status == Failed && r.hasError && r.done == []
    ensures Only(EventKind, Story(r)) == EventWord(r)
  {
    hide Only, Blocks, Story;
    OnlyStory(EventKind, r);
    OnlyPair(EventKind, JobStarted, SetupCall);
    OnlyPair(EventKind, TeardownCall, JobFinished(Failed));
    assert EventBlocks(r.done) == [];
  }

  lemma RanEvents(r: JobRec)
    requires (r.status == Success || r.status == Failed) && !r.hasError
    ensures Only(EventKind, Story(r)) == EventWord(r)
  {
    hide Only, Blocks, Story, EventBlocks;
    OnlyStory(EventKind, r);
    OnlyBlocks(r.done);
    OnlyPair(EventKind, JobStarted, SetupCall);
    OnlyPair(EventKind, JobFinished(r.status), TeardownCall);
  }

  lemma IdleStory(kind: Kind, r: JobRec)
    requires r.status == Skipped || r.status == Canceled
    ensures Only(kind, Story(r)) == if kind == EventKind && r.status == Skipped then [JobSkipped] else []
  {
    OnlyOne(kind, JobSkipped);
  }

  lemma StoryEvents(r: JobRec)
    requires Worked(r) || r.status == Skipped || r.status == Canceled
    ensures Only(EventKind, Story(r)) == EventWord(r)
  {
    hide Only, Story, EventBlocks;
    if r.status == Skipped || r.status == Canceled {
      IdleStory(EventKind, r);
    } else if r.hasError {
      SetupFailedEvents(r);
    } else {
      RanEvents(r);
    }
  }

  lemma StoryCalls(r: JobRec)
    requires Worked(r) || r.status == Skipped || r.status == Canceled
    ensures Only(CallKind, Story(r)) == CallWord(r)
  {
    hide Only, Story, Blocks, RunCalls;
    if r.status == Skipped || r.status == Canceled {
      IdleStory(CallKind, r);
    } else {
      OnlyStory(CallKind, r);
      OnlyBlocks(r.done);
      OnlyPair(CallKind, JobStarted, SetupCall);
      OnlyPair(CallKind, JobFinished(r.status), TeardownCall);
      OnlyPair(CallKind, TeardownCall, JobFinished(Failed));
      if r.hasError { assert RunCalls(|r.done|) == []; }
    }
  }

  lemma StoryChannel(r: JobRec)
    requires Worked(r) || r.status == Skipped || r.status == Canceled
    ensures Only(ChannelKind, Story(r)) == []
  {
    hide Only, Story, Blocks;
    if r.status == Skipped || r.status == Canceled {
      IdleStory(ChannelKind, r);
    } else {
      OnlyStory(ChannelKind, r);
      OnlyBlocks(r.done);
      OnlyPair(ChannelKind, JobStarted, SetupCall);
      OnlyPair(ChannelKind, JobFinished(r.status), TeardownCall);
      OnlyPair(ChannelKind, TeardownCall, JobFinished(Failed));
    }
  }

  /** In every run, with cancellation at any moment, an ended job's events form its event word; all
      its called steps but the last passed, and all of them did, to the last step, if it succeeded. */
  lemma EventGrammar(c: Config, s: State, j: Name)
    requires WellFormed(c) && Reachable(c, s) && Closed(s, j)
    ensures Only(EventKind, Project(s.trace, j)) == EventWord(s.jobs[j])
    ensures j in c.steps && |s.jobs[j].done| <= c.steps[j]
    ensures forall k :: 0 <= k < |s.jobs[j].done| - 1 ==> s.jobs[j].done[k].outcome == Exit(0)
    ensures s.jobs[j].status == Success ==>
      |s.jobs[j].done| == c.steps[j] && forall k :: 0 <= k < |s.jobs[j].done| ==> s.jobs[j].done[k].outcome == Exit(0)
  {
    hide WellFormed, Reachable, Only, Story, Project, EventWord;
    EndedStory(c, s, j);
    OnlyAdvance(EventKind, Story(s.jobs[j]), DoneClosed);
    StoryEvents(s.jobs[j]);
    assert EventWord(s.jobs[j]) + [] == EventWord(s.jobs[j]);
  }

  /** On every path, including cancellation, an ended job's runner calls form its call word, and
      nothing is run when Setup failed. */
  lemma RunnerBracketing(c: Config, s: State, j: Name)
    requires WellFormed(c) && Reachable(c, s) && Closed(s, j)
    ensures Only(CallKind, Project(s.trace, j)) == CallWord(s.jobs[j])
    ensures s.jobs[j].hasError ==> s.jobs[j].done == []
  {
    hide WellFormed, Reachable, Only, Story, Project, CallWord;
    EndedStory(c, s, j);
    OnlyAdvance(CallKind, Story(s.jobs[j]), DoneClosed);
    StoryCalls(s.jobs[j]);
    assert CallWord(s.jobs[j]) + [] == CallWord(s.jobs[j]);
  }

  /** Each done-channel is closed once, as the last act of its goroutine. */
  lemma ClosedOnce(c: Config, s: State, j: Name)
    requires WellFormed(c) && Reachable(c, s) && Closed(s, j)
    ensures Only(ChannelKind, Project(s.trace, j)) == [DoneClosed]
    ensures Project(s.trace, j) != [] && Project(s.trace, j)[|Project(s.trace, j)| - 1] == DoneClosed
  {
    hide WellFormed, Reachable, Only, Story, Project;
    EndedStory(c, s, j);
    OnlyAdvance(ChannelKind, Story(s.jobs[j]), DoneClosed);
    StoryChannel(s.jobs[j]);
  }

  // ----------------------------------------------------------- what is logged

  /** The data of the StepLog events of a step. */
  function LoggedData(acts: seq<Act>, i: nat): seq<Bytes> {
    if acts == [] then []
    else
      var last := acts[|acts| - 1];
      LoggedData(acts[..|acts| - 1], i) + if last.StepLog? && last.step == i then [last.data] else []
  }

  /** `l` is a write of the active RunStep of step `i` of job `j`. */
  predicate WritesTo(s: State, l: Label, j: Name, i: nat) {
    && l.JobMove? && l.job == j && l.choice.Write?
    && j in s.jobs && s.jobs[j].pc.InStep? && s.jobs[j].pc.i == i
  }

  /** What the RunStep of that step has written in a run, in order. */
  function WrittenData(states: seq<State>, labels: seq<Label>, j: Name, i: nat): seq<Bytes>
    requires |states| == |labels| + 1
  {
    if labels == [] then []
    else
      var k := |labels| - 1;
      WrittenData(states[..k + 1], labels[..k], j, i)
      + if WritesTo(states[k], labels[k], j, i) then [labels[k].choice.data] else []
  }

  lemma LoggedNext(acts: seq<Act>, more: seq<Act>, i: nat)
    requires |more| <= 1
    ensures LoggedData(acts + more, i)
         == LoggedData(acts, i) + if more != [] && more[0].StepLog? && more[0].step == i then [more[0].data] else []
  {
    if more == [] {
      assert acts + more == acts;
    } else {
      assert (acts + more)[..|acts|] == acts;
    }
  }

  /** The one act of a move is a StepLog exactly for a write, and carries what was written. */
  lemma MoveLogs(c: Config, s: State, j: Name, choice: Choice, i: nat)
    requires j in s.jobs && CanMove(c, s, j, choice) && |s.jobs[j].stepStatus| == c.steps[j]
    ensures var acts := MoveOf(c, s, j, choice).acts;
      && |acts| <= 1
      && (if acts != [] && acts[0].StepLog? && acts[0].step == i then [acts[0].data] else [])
         == (if WritesTo(s, JobMove(j, choice), j, i) then [choice.data] else [])
  {
    hide DepFailed;
  }

  lemma LogsNext(c: Config, s: State, l: Label, j: Name, i: nat)
    requires Enabled(c, s, l)
    ensures LoggedData(Project(Next(c, s, l).trace, j), i)
         == LoggedData(Project(s.trace, j), i) + if WritesTo(s, l, j, i) then [l.choice.data] else []
  {
    hide CanMove, MoveOf, LoggedData, Project, Verdict;
    assert Project(s.trace, j) + [] == Project(s.trace, j);
    assert LoggedData(Project(s.trace, j), i) + [] == LoggedData(Project(s.trace, j), i);
    match l
    case JobMove(k, choice) =>
      LabelMoves(c, s, l);
      ProjectTagged(s.trace, k, MoveOf(c, s, k, choice).acts, j);
      if k == j {
        MoveLogs(c, s, j, choice, i);
        LoggedNext(Project(s.trace, j), MoveOf(c, s, j, choice).acts, i);
      }
    case Finish => ProjectOne(s.trace, PipelineFinished(s.main.result.status), j);
    case _ =>
  }

  /** In every run, the StepLog events of a step carry exactly what its RunStep has written, in order. */
  lemma {:induction false} LogsAreWrites(c: Config, states: seq<State>, labels: seq<Label>, j: Name, i: nat)
    requires c.steps.Keys == c.deps.Keys && IsRun(c, states, labels)
    ensures LoggedData(Project(states[|labels|].trace, j), i) == WrittenData(states, labels, j, i)
  {
    hide Enabled, Next, LoggedData, Project, WritesTo;
    if labels == [] {
      NothingLogged(j, i);
    } else {
      var k := |labels| - 1;
      assert IsRun(c, states[..k + 1], labels[..k]) && states[..k + 1][k] == states[k];
      LogsAreWrites(c, states[..k + 1], labels[..k], j, i);
      LogsNext(c, states[k], labels[k], j, i);
    }
  }

  lemma NothingLogged(j: Name, i: nat)
    ensures LoggedData(Project([PipelineStarted], j), i) == []
  {
  }

  /** A complete run's trace starts with PipelineStarted, ends with PipelineFinished carrying the
      verdict, and has only acts of jobs in between. */
  lemma PipelineBrackets(c: Config, s: State)
    requires WellFormed(c) && Reachable(c, s) && s.main.Returned?
    ensures |s.trace| >= 2 && s.trace[0] == PipelineStarted
    ensures s.trace[|s.trace| - 1] == PipelineFinished(s.main.result.status)
    ensures forall p :: 0 < p < |s.trace| - 1 ==> s.trace[p].JobAct?
  {
    hide WellFormed, Reachable, JobInv, VerdictOk;
    InvReachable(c, s);
    var t := s.trace[..|s.trace| - 1];
    assert t[0] == s.trace[0];
    forall p | 0 < p < |s.trace| - 1 ensures s.trace[p].JobAct? { assert t[p] == s.trace[p]; }
  }
}
