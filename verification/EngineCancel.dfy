/** What cancellation stops: after it, a job starts at most what it had already been cleared for. */
module EngineCancel {
  import opened Names
  import opened Model
  import opened Engine
  import opened EngineLocal
  import opened EngineInvariant
  import opened EngineSafety

  function StartedJobs(acts: seq<Act>): nat {
    if acts == [] then 0
    else StartedJobs(acts[..|acts| - 1]) + if acts[|acts| - 1].JobStarted? then 1 else 0
  }

  function StartedSteps(acts: seq<Act>): nat {
    if acts == [] then 0
    else StartedSteps(acts[..|acts| - 1]) + if acts[|acts| - 1].StepStarted? then 1 else 0
  }

  /** Past its context check, and about to start. */
  function JobCredit(r: JobRec): nat {
    if r.pc.CheckDeps? || r.pc.EmitStarted? then 1 else 0
  }

  function StepCredit(r: JobRec): nat {
    if r.pc.EmitStep? then 1 else 0
  }

  lemma {:induction false} StartsAdd(a: seq<Act>, b: seq<Act>)
    ensures StartedJobs(a + b) == StartedJobs(a) + StartedJobs(b)
    ensures StartedSteps(a + b) == StartedSteps(a) + StartedSteps(b)
  {
    if b == [] {
      assert a + b == a;
    } else {
      var k := |b| - 1;
      assert (a + b)[..|a + b| - 1] == a + b[..k];
      StartsAdd(a, b[..k]);
    }
  }

  lemma FewStarts()
    ensures StartedJobs([]) == 0 && StartedSteps([]) == 0
    ensures forall a: Act :: StartedJobs([a]) == if a.JobStarted? then 1 else 0
    ensures forall a: Act :: StartedSteps([a]) == if a.StepStarted? then 1 else 0
  {
    forall a: Act ensures StartedJobs([a]) == if a.JobStarted? then 1 else 0 { assert [a][..0] == []; }
    forall a: Act ensures StartedSteps([a]) == if a.StepStarted? then 1 else 0 { assert [a][..0] == []; }
  }

  /** A move that uses up credit for whatever it starts, and earns none. */
  ghost predicate Spends(r: JobRec, m: Move) {
    && StartedJobs(m.acts) + JobCredit(m.rec) <= JobCredit(r)
    && StartedSteps(m.acts) + StepCredit(m.rec) <= StepCredit(r)
  }

  lemma LoopSpends(c: Config, j: Name, r: JobRec, depFailed: bool, choice: Choice)
    requires j in c.deps && j in c.steps && |r.stepStatus| == c.steps[j]
    requires InLoop(r.pc)
    ensures Spends(r, JobStep(c, j, r, true, depFailed, choice))
  {
    hide StartedJobs, StartedSteps;
    FewStarts();
  }

  lemma StartSpends(c: Config, j: Name, r: JobRec, depFailed: bool, choice: Choice)
    requires j in c.deps && j in c.steps && |r.stepStatus| == c.steps[j]
    requires BeforeRun(r.pc)
    ensures Spends(r, JobStep(c, j, r, true, depFailed, choice))
  {
    hide StartedJobs, StartedSteps;
    FewStarts();
  }

  lemma EndSpends(c: Config, j: Name, r: JobRec, depFailed: bool, choice: Choice)
    requires j in c.deps && j in c.steps && |r.stepStatus| == c.steps[j]
    requires !BeforeRun(r.pc) && !InLoop(r.pc)
    ensures Spends(r, JobStep(c, j, r, true, depFailed, choice))
  {
    hide StartedJobs, StartedSteps;
    FewStarts();
  }

  /** Every move of a job in a cancelled context spends. */
  lemma MoveSpends(c: Config, j: Name, r: JobRec, depFailed: bool, choice: Choice)
    requires j in c.deps && j in c.steps && |r.stepStatus| == c.steps[j]
    ensures Spends(r, JobStep(c, j, r, true, depFailed, choice))
  {
    hide JobStep, Spends;
    if BeforeRun(r.pc) { StartSpends(c, j, r, depFailed, choice); }
    else if InLoop(r.pc) { LoopSpends(c, j, r, depFailed, choice); }
    else { EndSpends(c, j, r, depFailed, choice); }
  }

  lemma NextSpends(c: Config, s: State, l: Label, j: Name)
    requires Inv(c, s) && Enabled(c, s, l) && s.cancelled && j in s.jobs
    ensures var t := Next(c, s, l);
      && t.cancelled && j in t.jobs
      && StartedJobs(Project(t.trace, j)) + JobCredit(t.jobs[j])
           <= StartedJobs(Project(s.trace, j)) + JobCredit(s.jobs[j])
      && StartedSteps(Project(t.trace, j)) + StepCredit(t.jobs[j])
           <= StartedSteps(Project(s.trace, j)) + StepCredit(s.jobs[j])
  {
    hide Inv, CanMove, JobStep, JobCredit, StepCredit, StartedJobs, StartedSteps, Project, Verdict;
    var t := Next(c, s, l);
    match l
    case JobMove(k, choice) =>
      LabelMoves(c, s, l);
      ProjectTagged(s.trace, k, MoveOf(c, s, k, choice).acts, j);
      if k == j {
        MoveSpends(c, j, s.jobs[j], DepFailed(c, s, j), choice);
        StartsAdd(Project(s.trace, j), MoveOf(c, s, j, choice).acts);
      } else {
        assert Project(t.trace, j) == Project(s.trace, j);
      }
    case Finish =>
      ProjectOne(s.trace, PipelineFinished(s.main.result.status), j);
      assert Project(t.trace, j) == Project(s.trace, j);
    case _ =>
  }

  /** The rest of a run, from any state on. */
  ghost predicate Continues(c: Config, states: seq<State>, labels: seq<Label>) {
    && |states| == |labels| + 1
    && forall i :: 0 <= i < |labels| ==>
         Enabled(c, states[i], labels[i]) && states[i + 1] == Next(c, states[i], labels[i])
  }

  lemma {:induction false} RestSpends(c: Config, states: seq<State>, labels: seq<Label>, j: Name)
    requires Continues(c, states, labels) && Inv(c, states[0]) && states[0].cancelled && j in states[0].jobs
    ensures var s, t := states[0], states[|labels|];
      && Inv(c, t) && t.cancelled && j in t.jobs
      && StartedJobs(Project(t.trace, j)) + JobCredit(t.jobs[j])
           <= StartedJobs(Project(s.trace, j)) + JobCredit(s.jobs[j])
      && StartedSteps(Project(t.trace, j)) + StepCredit(t.jobs[j])
           <= StartedSteps(Project(s.trace, j)) + StepCredit(s.jobs[j])
  {
    hide Inv, Enabled, Next, JobCredit, StepCredit, StartedJobs, StartedSteps, Project;
    if labels == [] {
    } else {
      var k := |labels| - 1;
      assert Continues(c, states[..k + 1], labels[..k]);
      RestSpends(c, states[..k + 1], labels[..k], j);
      assert states[..k + 1][k] == states[k] && states[..k + 1][0] == states[0];
      NextSpends(c, states[k], labels[k], j);
      InvNext(c, states[k], labels[k]);
    }
  }

  /** Cancellation stops work: in whatever way a run goes on from a cancelled state, a job starts only if
      it had passed its context check before, and it starts at most one more step, namely the one whose
      check it had passed. */
  lemma CancellationStopsWork(c: Config, states: seq<State>, labels: seq<Label>, j: Name)
    requires WellFormed(c) && Continues(c, states, labels) && Reachable(c, states[0])
    requires states[0].cancelled && j in states[0].jobs
    ensures var s, t := states[0], states[|labels|];
      && StartedJobs(Project(t.trace, j)) <= StartedJobs(Project(s.trace, j)) + JobCredit(s.jobs[j])
      && StartedSteps(Project(t.trace, j)) <= StartedSteps(Project(s.trace, j)) + StepCredit(s.jobs[j])
  {
    hide WellFormed, Inv, Reachable, Enabled, Next, JobCredit, StepCredit, StartedJobs, StartedSteps, Project;
    InvReachable(c, states[0]);
    RestSpends(c, states, labels, j);
  }

  // ------------------------------------------------------------- the verdict

  /** Cancelled before the final check, or already judged so. */
  ghost predicate Doomed(s: State) {
    s.cancelled && (s.main.Waiting? || s.main.result.status == Canceled)
  }

  lemma {:induction false} DoomStays(c: Config, states: seq<State>, labels: seq<Label>)
    requires Continues(c, states, labels) && Doomed(states[0])
    ensures Doomed(states[|labels|])
  {
    hide CanMove, MoveOf;
    if labels == [] {
    } else {
      var k := |labels| - 1;
      assert Continues(c, states[..k + 1], labels[..k]);
      DoomStays(c, states[..k + 1], labels[..k]);
      assert states[..k + 1][k] == states[k];
      assert Enabled(c, states[k], labels[k]) && states[k + 1] == Next(c, states[k], labels[k]);
    }
  }

  /** A pipeline that is cancelled before the final check ends as Canceled, whatever its
      jobs did, and even if all of them succeeded. */
  lemma CanceledVerdict(c: Config, states: seq<State>, labels: seq<Label>)
    requires Continues(c, states, labels) && states[0].cancelled && states[0].main.Waiting?
    requires states[|labels|].main.Returned?
    ensures states[|labels|].main.result.status == Canceled
  {
    hide Enabled, Next;
    DoomStays(c, states, labels);
  }

  /** The context was cancelled before the final check looked at it. */
  ghost predicate CancelledInTime(states: seq<State>, labels: seq<Label>)
    requires |states| == |labels| + 1
  {
    exists k :: 0 <= k < |labels| && labels[k].Cancel? && states[k].main.Waiting?
  }

  /** What the verdict owes to that: up to the final check the context itself, afterwards the status
      and the error. */
  ghost predicate CancelShows(s: State, inTime: bool) {
    if s.main.Waiting? then s.cancelled == inTime
    else (s.main.result.status == Canceled <==> inTime) && (inTime ==> s.main.result.hasError)
  }

  lemma CancelShowsNext(c: Config, s: State, l: Label, inTime: bool)
    requires Enabled(c, s, l) && CancelShows(s, inTime)
    ensures CancelShows(Next(c, s, l), inTime || (l.Cancel? && s.main.Waiting?))
  {
    hide CanMove, MoveOf, OrderedResults, HasFailedResult;
  }

  lemma {:induction false} CancelShowsAlways(c: Config, states: seq<State>, labels: seq<Label>)
    requires c.steps.Keys == c.deps.Keys && IsRun(c, states, labels)
    ensures CancelShows(states[|labels|], CancelledInTime(states, labels))
  {
    hide Enabled, Next, CancelShows, CancelledInTime;
    if labels == [] {
      CancelShowsFirst(c, states);
    } else {
      var k := |labels| - 1;
      assert IsRun(c, states[..k + 1], labels[..k]) && states[..k + 1][k] == states[k];
      CancelShowsAlways(c, states[..k + 1], labels[..k]);
      CancelShowsNext(c, states[k], labels[k], CancelledInTime(states[..k + 1], labels[..k]));
      OneMoreLabel(states, labels);
    }
  }

  lemma CancelShowsFirst(c: Config, states: seq<State>)
    requires c.steps.Keys == c.deps.Keys && IsRun(c, states, [])
    ensures CancelShows(states[0], CancelledInTime(states, []))
  {
  }

  lemma OneMoreLabel(states: seq<State>, labels: seq<Label>)
    requires |states| == |labels| + 1 && labels != []
    ensures var k := |labels| - 1;
      CancelledInTime(states, labels)
      <==> CancelledInTime(states[..k + 1], labels[..k]) || (labels[k].Cancel? && states[k].main.Waiting?)
  {
    var k := |labels| - 1;
    forall i | 0 <= i < k ensures labels[..k][i] == labels[i] && states[..k + 1][i] == states[i] {
    }
    if CancelledInTime(states, labels) {
      var i :| 0 <= i < |labels| && labels[i].Cancel? && states[i].main.Waiting?;
      if i < k { assert labels[..k][i].Cancel? && states[..k + 1][i].main.Waiting?; }
    }
    if CancelledInTime(states[..k + 1], labels[..k]) {
      var i :| 0 <= i < k && labels[..k][i].Cancel? && states[..k + 1][i].main.Waiting?;
      assert labels[i].Cancel? && states[i].main.Waiting?;
    }
  }

  /** A complete run ends as Canceled, with an error, exactly when the context was cancelled before the
      final check. */
  lemma CanceledExactly(c: Config, states: seq<State>, labels: seq<Label>)
    requires c.steps.Keys == c.deps.Keys && IsRun(c, states, labels) && states[|labels|].main.Returned?
    ensures states[|labels|].main.result.status == Canceled <==> CancelledInTime(states, labels)
    ensures states[|labels|].main.result.status == Canceled ==> states[|labels|].main.result.hasError
  {
    hide Enabled, Next, CancelledInTime;
    CancelShowsAlways(c, states, labels);
  }
}
