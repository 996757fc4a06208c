/** What every run keeps: dependency safety, happens-before, root causes, the verdict, the result
    list, and the shape of each job's events and runner calls. */
module EngineSafety {
  import opened Names
  import opened Graphs
  import opened Model
  import opened Engine
  import opened EngineLocal
  import opened EngineInvariant

  // -------------------------------------------------------- dependency safety

  lemma DepsOfExecuting(c: Config, s: State, j: Name, d: Name)
    requires Inv(c, s) && j in s.jobs && PhaseOf(s.jobs[j]) == Executing && Edge(c.deps, j, d)
    ensures d in s.jobs && ClosedAs(s, d, Success) && PhaseOf(s.jobs[d]) == Executing
  {
    hide LocalInv, Script, Project, Faithful, MainInv, WellFormed, Live;
    SameKeys(c);
    assert JobInv(c, s, j);
    var k :| 0 <= k < |c.deps[j]| && c.deps[j][k] == d;
    assert ClosedAs(s, c.deps[j][k], Success);
    assert JobInv(c, s, d);
    ClosedHasEnded(c.steps[d], d, s.jobs[d]);
  }

  lemma {:induction false} SafePath(c: Config, s: State, p: seq<Name>)
    requires Inv(c, s) && IsPath(c.deps, p) && |p| >= 2 && p[0] in s.jobs && PhaseOf(s.jobs[p[0]]) == Executing
    ensures ClosedAs(s, p[|p| - 1], Success) && PhaseOf(s.jobs[p[|p| - 1]]) == Executing
  {
    hide Inv, PhaseOf;
    TailPath(c.deps, p);
    DepsOfExecuting(c, s, p[0], p[1]);
    if |p| == 2 {
    } else {
      SafePath(c, s, p[1..]);
    }
  }

  lemma ExecutingHasDeps(c: Config, s: State, j: Name, d: Name)
    requires Inv(c, s) && j in s.jobs && PhaseOf(s.jobs[j]) == Executing && DependsOn(c.deps, j, d)
    ensures ClosedAs(s, d, Success) && PhaseOf(s.jobs[d]) == Executing
  {
    hide Inv, PhaseOf;
    var p :| PathFrom(c.deps, j, p) && |p| >= 2 && p[|p| - 1] == d;
    SafePath(c, s, p);
  }

  /** Whenever a job has entered executeJob, each of its transitive dependencies has finished with
      status Success and closed its channel, however the goroutines interleaved and whenever the
      context was cancelled. */
  lemma DependencySafety(c: Config, s: State, j: Name, d: Name)
    requires WellFormed(c) && Reachable(c, s)
    requires j in s.jobs && PhaseOf(s.jobs[j]) == Executing && DependsOn(c.deps, j, d)
    ensures d in s.jobs && s.jobs[d].closed && s.jobs[d].status == Success
    ensures s.jobs[d].result == Some(JobResult(d, Success, s.jobs[d].results, false)) && !s.jobs[d].failedEntry
  {
    hide WellFormed, Reachable, Inv, PhaseOf;
    InvReachable(c, s);
    ExecutingHasDeps(c, s, j, d);
    EndedAs(c, s, d);
  }

  lemma EndedAs(c: Config, s: State, d: Name)
    requires Inv(c, s) && Closed(s, d)
    ensures d in c.steps && d in c.deps && EndedWell(c.steps[d], d, s.jobs[d])
    ensures s.jobs[d].status == Success ==> !s.jobs[d].hasError
  {
    hide LocalInv, Script, Project, Faithful, MainInv, WellFormed, Live, DepInv, StepsConserved;
    SameKeys(c);
    assert JobInv(c, s, d);
    ClosedHasEnded(c.steps[d], d, s.jobs[d]);
  }

  // ----------------------------------------------------------- happens-before

  ghost predicate Before(t: seq<Obs>, p: int, o: Obs) {
    exists q :: 0 <= q < p && q < |t| && t[q] == o
  }

  /** An act that only executeJob performs. */
  predicate ExecutionAct(a: Act) {
    !a.JobSkipped? && !a.DoneClosed?
  }

  ghost predicate DepFinishedBefore(t: seq<Obs>, p: int, d: Name) {
    && Before(t, p, JobAct(d, JobFinished(Success)))
    && Before(t, p, JobAct(d, TeardownCall))
    && Before(t, p, JobAct(d, DoneClosed))
  }

  /** Every act of an executing job comes after the JobFinished, the Teardown and the channel close
      of each of its transitive dependencies. */
  ghost predicate TraceOrdered(c: Config, t: seq<Obs>) {
    forall p, d :: 0 <= p < |t| && t[p].JobAct? && ExecutionAct(t[p].act) && DependsOn(c.deps, t[p].job, d)
      ==> DepFinishedBefore(t, p, d)
  }

  lemma {:induction false} ProjectedIsTraced(t: seq<Obs>, j: Name, a: Act)
    requires a in Project(t, j)
    ensures Before(t, |t|, JobAct(j, a))
  {
    if t == [] {
    } else {
      var k := |t| - 1;
      if t[k] == JobAct(j, a) {
      } else {
        ProjectedIsTraced(t[..k], j, a);
        var q :| 0 <= q < k && t[..k][q] == JobAct(j, a);
        assert t[q] == JobAct(j, a);
      }
    }
  }

  lemma BeforeExtends(t: seq<Obs>, u: seq<Obs>, p: int, d: Name)
    requires DepFinishedBefore(t, p, d) && p <= |t|
    ensures DepFinishedBefore(t + u, p, d)
    ensures forall p' :: p' >= p ==> DepFinishedBefore(t + u, p', d)
  {
    forall o, p' | Before(t, p, o) && p' >= p ensures Before(t + u, p', o) {
      var q :| 0 <= q < p && q < |t| && t[q] == o;
      assert (t + u)[q] == o;
    }
  }

  lemma SuccessStory(c: Config, s: State, d: Name)
    requires Inv(c, s) && ClosedAs(s, d, Success)
    ensures DepFinishedBefore(s.trace, |s.trace|, d)
  {
    hide Project, Faithful, MainInv, WellFormed, Live, DepInv, Begun, Before;
    StoryOfClosed(c, s, d);
    var told := Begun(s.jobs[d].done) + [JobFinished(Success), TeardownCall] + [DoneClosed];
    var k := |Begun(s.jobs[d].done)|;
    assert told[k] == JobFinished(Success) && told[k + 1] == TeardownCall && told[k + 2] == DoneClosed;
    ProjectedIsTraced(s.trace, d, JobFinished(Success));
    ProjectedIsTraced(s.trace, d, TeardownCall);
    ProjectedIsTraced(s.trace, d, DoneClosed);
  }

  lemma StoryOfClosed(c: Config, s: State, d: Name)
    requires Inv(c, s) && Closed(s, d)
    ensures Project(s.trace, d) == Story(s.jobs[d]) + [DoneClosed]
  {
    hide LocalInv, Story, Project, Faithful, MainInv, WellFormed, Live, DepInv;
    SameKeys(c);
    assert JobInv(c, s, d);
    ClosedHasEnded(c.steps[d], d, s.jobs[d]);
  }

  lemma ActOfExecuting(c: Config, j: Name, r: JobRec, cancelled: bool, depFailed: bool, choice: Choice, a: Act)
    requires j in c.deps && j in c.steps && |r.stepStatus| == c.steps[j] && LocalInv(c.steps[j], j, r)
    requires a in JobStep(c, j, r, cancelled, depFailed, choice).acts && ExecutionAct(a)
    ensures PhaseOf(r) == Executing
  {
    hide LocalInv;
  }

  lemma LabelMoves(c: Config, s: State, l: Label)
    requires Enabled(c, s, l) && l.JobMove?
    ensures l.job in s.jobs && l.job in c.deps && l.job in c.steps && |s.jobs[l.job].stepStatus| == c.steps[l.job]
  {
  }

  lemma OrderNext(c: Config, s: State, l: Label)
    requires Inv(c, s) && Enabled(c, s, l) && TraceOrdered(c, s.trace)
    ensures TraceOrdered(c, Next(c, s, l).trace)
  {
    hide Inv, CanMove, JobStep, DependsOn, DepFinishedBefore, PhaseOf, Verdict;
    var t := Next(c, s, l).trace;
    assert s.trace <= t;
    var u := t[|s.trace|..];
    assert t == s.trace + u;
    forall p, d | 0 <= p < |t| && t[p].JobAct? && ExecutionAct(t[p].act) && DependsOn(c.deps, t[p].job, d)
      ensures DepFinishedBefore(t, p, d)
    {
      if p < |s.trace| {
        assert t[p] == s.trace[p];
        BeforeExtends(s.trace, u, p, d);
      } else {
        var j := t[p].job;
        assert l.JobMove? && j == l.job;
        LabelMoves(c, s, l);
        var acts := MoveOf(c, s, j, l.choice).acts;
        assert t[p] == JobAct(j, acts[p - |s.trace|]);
        InvLocal(c, s, j);
        ActOfExecuting(c, j, s.jobs[j], s.cancelled, DepFailed(c, s, j), l.choice, t[p].act);
        ExecutingHasDeps(c, s, j, d);
        SuccessStory(c, s, d);
        BeforeExtends(s.trace, u, |s.trace|, d);
      }
    }
  }

  lemma InvLocal(c: Config, s: State, j: Name)
    requires Inv(c, s) && j in s.jobs
    ensures j in c.steps && j in c.deps && LocalInv(c.steps[j], j, s.jobs[j])
    ensures JobInv(c, s, j) && |s.jobs[j].stepStatus| == c.steps[j]
  {
    hide LocalInv, Project, Script, Faithful, DepInv, MainInv, Live;
    LineLength(c.steps[j], j, s.jobs[j]);
  }

  lemma {:induction false} OrderRun(c: Config, states: seq<State>, labels: seq<Label>)
    requires WellFormed(c) && IsRun(c, states, labels)
    ensures TraceOrdered(c, states[|labels|].trace)
  {
    hide WellFormed, Inv, Enabled, Next, TraceOrdered;
    SameKeys(c);
    if labels == [] {
      NothingOrdered(c);
    } else {
      var k := |labels| - 1;
      assert IsRun(c, states[..k + 1], labels[..k]);
      OrderRun(c, states[..k + 1], labels[..k]);
      InvRun(c, states[..k + 1], labels[..k]);
      assert states[..k + 1][k] == states[k];
      OrderNext(c, states[k], labels[k]);
    }
  }

  lemma NothingOrdered(c: Config)
    ensures TraceOrdered(c, [PipelineStarted])
  {
  }

  /** In every run the trace respects the dependencies. */
  lemma HappensBefore(c: Config, s: State)
    requires WellFormed(c) && Reachable(c, s)
    ensures TraceOrdered(c, s.trace)
  {
    hide WellFormed, Enabled, Next, TraceOrdered;
    SameKeys(c);
    var states, labels :| IsRun(c, states, labels) && states[|labels|] == s;
    OrderRun(c, states, labels);
  }

  // --------------------------------------------------------------- root cause

  lemma BadDependency(c: Config, s: State, j: Name) returns (d: Name)
    requires Inv(c, s) && j in s.jobs && PhaseOf(s.jobs[j]) == Skipping
    ensures Edge(c.deps, j, d) && (ClosedAs(s, d, Failed) || ClosedAs(s, d, Skipped))
  {
    hide LocalInv, Script, Project, Faithful, MainInv, WellFormed, Live;
    SameKeys(c);
    assert JobInv(c, s, j);
    var k :| 0 <= k < |c.deps[j]| && (ClosedAs(s, c.deps[j][k], Failed) || ClosedAs(s, c.deps[j][k], Skipped));
    d := c.deps[j][k];
  }

  lemma SkippedPhase(c: Config, s: State, j: Name)
    requires Inv(c, s) && ClosedAs(s, j, Skipped)
    ensures PhaseOf(s.jobs[j]) == Skipping
  {
    hide LocalInv, Script, Project, Faithful, MainInv, WellFormed, Live, DepInv;
    SameKeys(c);
    assert JobInv(c, s, j);
    ClosedHasEnded(c.steps[j], j, s.jobs[j]);
  }

  lemma {:induction false} FailedAbove(c: Config, s: State, rank: map<Name, nat>, j: Name)
    returns (d: Name, p: seq<Name>)
    requires Inv(c, s) && IsRanking(c.deps, rank) && j in s.jobs && j in rank && PhaseOf(s.jobs[j]) == Skipping
    ensures ClosedAs(s, d, Failed) && PathFrom(c.deps, j, p) && |p| >= 2 && p[|p| - 1] == d
    decreases rank[j]
  {
    hide Inv, PhaseOf;
    d := BadDependency(c, s, j);
    if ClosedAs(s, d, Failed) {
      p := [j, d];
    } else {
      SkippedPhase(c, s, d);
      d, p := FailedAbove(c, s, rank, d);
      ConsPath(c.deps, j, p);
      p := [j] + p;
    }
  }

  /** A skipped job has a transitive dependency that failed. */
  lemma RootCause(c: Config, s: State, j: Name)
    requires WellFormed(c) && !Cyclic(c.deps) && Reachable(c, s)
    requires j in s.jobs && s.jobs[j].status == Skipped
    ensures exists d :: DependsOn(c.deps, j, d) && d in s.jobs && s.jobs[d].closed && s.jobs[d].status == Failed
  {
    hide WellFormed, Inv, PhaseOf, Reachable, IsRanking, Cyclic, Known;
    KnownDeps(c);
    var rank := AcyclicIsRanked(c.deps);
    RankDomain(c.deps, rank);
    InvReachable(c, s);
    SkippedMeansSkipping(c, s, j);
    var d, p := FailedAbove(c, s, rank, j);
    assert DependsOn(c.deps, j, d);
  }

  lemma KnownDeps(c: Config)
    requires WellFormed(c)
    ensures Known(c.deps)
  {
  }

  lemma SkippedMeansSkipping(c: Config, s: State, j: Name)
    requires Inv(c, s) && j in s.jobs && s.jobs[j].status == Skipped
    ensures PhaseOf(s.jobs[j]) == Skipping && j in c.deps
  {
    hide Script, Project, Faithful, MainInv, Live, DepInv, StepsConserved, Green, StatusLine, ResultsOf, LastNotGreen;
    assert JobInv(c, s, j);
  }

  // ------------------------------------------------------ verdict and results

  lemma AllEnded(c: Config, s: State, j: Name)
    requires Inv(c, s) && !s.main.Waiting? && j in s.jobs
    ensures s.jobs[j].pc.Exited? && Closed(s, j)
  {
    hide LocalInv, Script, Project, Faithful, WellFormed, DepInv, VerdictOk, JobActsOnly;
    SameKeys(c);
    assert JobInv(c, s, j);
    assert j !in Live(s);
    ClosedHasEnded(c.steps[j], j, s.jobs[j]);
  }

  lemma {:induction false} OrderedAll(order: seq<Name>, jobs: map<Name, JobRec>)
    requires forall j :: j in order ==> j in jobs && jobs[j].result.Some?
    ensures |OrderedResults(order, jobs)| == |order|
    ensures forall i :: 0 <= i < |order| ==> OrderedResults(order, jobs)[i] == jobs[order[i]].result.value
  {
    if order == [] {
    } else {
      var k := |order| - 1;
      OrderedAll(order[..k], jobs);
    }
  }

  lemma VerdictHolds(c: Config, s: State)
    requires Inv(c, s) && s.main.Returned?
    ensures VerdictOk(c, s, s.main.result)
  {
    hide VerdictOk, JobInv, WellFormed;
  }

  /** The status that a step's result leaves on the step. */
  ghost predicate StepShows(r: JobRec, k: nat)
    requires k < |r.stepStatus|
  {
    if k >= |r.results| then r.stepStatus[k] == Pending
    else if r.results[k] == Ran(Exit(0)) then r.stepStatus[k] == Success
    else if r.results[k] == Interrupted then r.stepStatus[k] == Canceled
    else r.stepStatus[k] == Failed
  }

  /** A job's results are successes, then at most one failure or interruption, and match the calls that
      returned; its steps show them, the rest untouched. A job past Setup is Success exactly when every
      one of its steps is; a failed Setup, a skip or a cancellation before the start leaves no result. */
  ghost predicate JobConserved(n: nat, r: JobRec) {
    && |r.results| <= n && |r.stepStatus| == n
    && (forall k :: 0 <= k < |r.results| - 1 ==> r.results[k] == Ran(Exit(0)))
    && (forall k :: 0 <= k < n ==> StepShows(r, k))
    && |r.done| <= |r.results| <= |r.done| + 1
    && (forall k :: 0 <= k < |r.results| ==>
               r.results[k] == if k < |r.done| then Ran(r.done[k].outcome) else Interrupted)
    && (r.status == Success || r.status == Failed || r.status == Skipped || r.status == Canceled)
    && (r.hasError ==> r.status == Failed)
    && (r.hasError || r.status == Skipped || r.status == Canceled ==> r.results == [])
    && (!r.hasError && (r.status == Success || r.status == Failed) ==>
         (r.status == Success <==> |r.results| == n && forall k :: 0 <= k < n ==> r.results[k] == Ran(Exit(0))))
  }

  lemma EndedIsConserved(n: nat, j: Name, r: JobRec)
    requires EndedWell(n, j, r)
    ensures JobConserved(n, r)
  {
    if r.status == Success || r.status == Failed {
      forall k | 0 <= k < |r.results| - 1 ensures r.results[k] == Ran(Exit(0)) {
        assert StatusOf(r.results[..|r.results| - 1][k]) == Success;
      }
      if r.status == Failed && !r.hasError {
        assert r.results[|r.results| - 1] != Ran(Exit(0));
      }
    }
  }

  /** The result lists every job exactly once, in pipeline order, with its final status and its step
      results, and each job's record is conserved. */
  lemma ResultsConserved(c: Config, s: State)
    requires WellFormed(c) && Reachable(c, s) && s.main.Returned?
    ensures |s.main.result.jobs| == |c.order|
    ensures forall i :: 0 <= i < |c.order| ==>
      var j := c.order[i]; var res := s.main.result.jobs[i];
      && j in s.jobs && j in c.steps && JobConserved(c.steps[j], s.jobs[j])
      && res == JobResult(j, s.jobs[j].status, s.jobs[j].results, s.jobs[j].hasError)
  {
    hide WellFormed, Inv, Reachable, EndedWell, OrderedResults, JobConserved;
    InvReachable(c, s);
    VerdictHolds(c, s);
    InvKeys(c, s);
    forall j | j in c.order
      ensures j in s.jobs && j in c.steps && JobConserved(c.steps[j], s.jobs[j])
      ensures s.jobs[j].result == Some(JobResult(j, s.jobs[j].status, s.jobs[j].results, s.jobs[j].hasError))
    {
      AllEnded(c, s, j);
      EndedAs(c, s, j);
      EndedIsConserved(c.steps[j], j, s.jobs[j]);
      ResultOfEnded(c.steps[j], j, s.jobs[j]);
    }
    OrderedAll(c.order, s.jobs);
  }

  lemma ResultOfEnded(n: nat, j: Name, r: JobRec)
    requires EndedWell(n, j, r)
    ensures r.result == Some(JobResult(j, r.status, r.results, r.hasError))
    ensures r.status == Success || r.status == Failed || r.status == Skipped || r.status == Canceled
  {
  }

  lemma InvKeys(c: Config, s: State)
    requires Inv(c, s)
    ensures forall j :: j in c.order <==> j in s.jobs
    ensures s.jobs.Keys == c.deps.Keys
  {
    hide JobInv, MainInv;
  }

  /** If the final context check finds nothing cancelled, no job was canceled, and the pipeline is
      Success exactly when every job is, although only Failed entries are looked for. */
  lemma VerdictMeaning(c: Config, s: State)
    requires WellFormed(c) && !Cyclic(c.deps) && Reachable(c, s)
    requires s.main.Returned? && s.main.result.status != Canceled
    ensures s.main.result.status == Success || s.main.result.status == Failed
    ensures forall j :: j in s.jobs ==> s.jobs[j].status != Canceled
    ensures s.main.result.status == Success <==> forall j :: j in s.jobs ==> s.jobs[j].status == Success
    ensures s.main.result.status == Failed <==> exists j :: j in s.jobs && s.jobs[j].status == Failed
  {
    hide WellFormed, Inv, Reachable, Cyclic, Faithful, EndedWell, DependsOn, OrderedResults;
    InvReachable(c, s);
    VerdictHolds(c, s);
    forall j | j in s.jobs
      ensures s.jobs[j].status == Success || s.jobs[j].status == Failed || s.jobs[j].status == Skipped
      ensures HasFailedResult(s, j) <==> s.jobs[j].status == Failed
    {
      AllEnded(c, s, j);
      EndedAs(c, s, j);
      ResultOfEnded(c.steps[j], j, s.jobs[j]);
    }
    if s.main.result.status == Success {
      forall j | j in s.jobs ensures s.jobs[j].status == Success {
        assert !HasFailedResult(s, j);
        if s.jobs[j].status == Skipped {
          RootCause(c, s, j);
        }
      }
    } else {
      var j :| HasFailedResult(s, j);
      assert s.jobs[j].status == Failed;
    }
  }

  /** The error of a Failed pipeline is that of some failed job, namely of the one that the range over the
      map meets first; it is nil exactly if that job did not fail in Setup. */
  lemma FailedPipelineError(c: Config, s: State)
    requires WellFormed(c) && Reachable(c, s) && s.main.Returned? && s.main.result.status == Failed
    ensures exists j :: j in s.jobs && s.jobs[j].status == Failed
                              && s.main.result.hasError == s.jobs[j].hasError == !c.setupOk(j)
  {
    hide WellFormed, Inv, Reachable, Faithful, EndedWell, OrderedResults;
    InvReachable(c, s);
    VerdictHolds(c, s);
    var j :| HasFailedResult(s, j) && s.main.result.hasError == s.jobs[j].result.value.hasError;
    AllEnded(c, s, j);
    EndedAs(c, s, j);
    ResultOfEnded(c.steps[j], j, s.jobs[j]);
    ErrorIsSetup(c, j, s.jobs[j]);
  }

  lemma ErrorIsSetup(c: Config, j: Name, r: JobRec)
    requires Faithful(c, j, r) && r.pc.Exited? && (r.status == Success || r.status == Failed)
    ensures r.hasError == !c.setupOk(j)
  {
  }

  ghost predicate ShownInFlight(r: JobRec) {
    && (r.pc.CallSetup? || InLoop(r.pc) || r.pc.EmitFinished? ==> r.status == Running)
    && (r.pc.EmitStep? || r.pc.CallStep? || r.pc.InStep? || r.pc.EmitStepDone? ==>
         r.pc.i < |r.stepStatus| && r.stepStatus[r.pc.i] == Running)
  }

  lemma LocalInFlight(n: nat, j: Name, r: JobRec)
    requires LocalInv(n, j, r)
    ensures ShownInFlight(r)
  {
    hide Green, ResultsOf, StepsConserved, LastNotGreen, EndedWell, Executed;
  }

  /** From JobStarted until its last step has returned a job's status is Running, and from the moment
      before StepStarted until its RunStep has returned that of a step is. */
  lemma StatusInFlight(c: Config, s: State, j: Name)
    requires WellFormed(c) && Reachable(c, s) && j in s.jobs
    ensures ShownInFlight(s.jobs[j])
  {
    hide WellFormed, Reachable, Inv, LocalInv, ShownInFlight;
    InvReachable(c, s);
    InvLocal(c, s, j);
    LocalInFlight(c.steps[j], j, s.jobs[j]);
  }

  // ------------------------------------------------------- channels and wait group

  /** No goroutine closes a closed channel or drops the wait group below zero, and wg.Wait returns
      only when every goroutine is gone. */
  lemma NoPanic(c: Config, s: State, j: Name)
    requires WellFormed(c) && Reachable(c, s) && j in s.jobs
    ensures s.jobs[j].pc.CloseDone? ==> !s.jobs[j].closed
    ensures s.jobs[j].pc.WgDone? ==> s.wg > 0
    ensures s.wg == 0 ==> s.jobs[j].pc.Exited? && s.jobs[j].closed
  {
    hide WellFormed, Reachable, LocalInv;
    InvReachable(c, s);
    InvLocal(c, s, j);
    ClosedHasEnded(c.steps[j], j, s.jobs[j]);
    LiveCount(c, s);
    if !s.jobs[j].pc.Exited? { assert j in Live(s); }
  }

  lemma LiveCount(c: Config, s: State)
    requires Inv(c, s)
    ensures s.wg == |Live(s)|
  {
    hide JobInv, MainInv, WellFormed;
  }
}
