/** The invariant of the whole engine: it holds at the start and every step keeps it, under every
    interleaving and with cancellation at any moment. */
module EngineInvariant {
  import opened Names
  import opened Model
  import opened Engine
  import opened EngineLocal

  // -------------------------------------------------------- projecting the trace

  /** The acts of one job, in the order in which they entered the trace. */
  function Project(t: seq<Obs>, j: Name): seq<Act> {
    if t == [] then []
    else
      var last := t[|t| - 1];
      Project(t[..|t| - 1], j) + if last.JobAct? && last.job == j then [last.act] else []
  }

  lemma ProjectOne(t: seq<Obs>, o: Obs, j: Name)
    ensures Project(t + [o], j) == Project(t, j) + if o.JobAct? && o.job == j then [o.act] else []
  {
    assert (t + [o])[..|t|] == t;
  }

  lemma {:induction false} ProjectTagged(t: seq<Obs>, j: Name, acts: seq<Act>, k: Name)
    ensures Project(t + Tagged(j, acts), k) == Project(t, k) + if j == k then acts else []
  {
    hide Project;
    if acts == [] {
      assert t + Tagged(j, acts) == t;
    } else {
      var m := |acts| - 1;
      var before := t + Tagged(j, acts[..m]);
      ProjectTagged(t, j, acts[..m], k);
      TaggedLast(t, j, acts);
      ProjectOne(before, JobAct(j, acts[m]), k);
      assert acts == acts[..m] + [acts[m]];
    }
  }

  lemma TaggedLast(t: seq<Obs>, j: Name, acts: seq<Act>)
    requires acts != []
    ensures t + Tagged(j, acts) == t + Tagged(j, acts[..|acts| - 1]) + [JobAct(j, acts[|acts| - 1])]
  {
  }

  // ------------------------------------------------------------- per-job parts

  ghost predicate Closed(s: State, d: Name) {
    d in s.jobs && s.jobs[d].closed
  }

  ghost predicate ClosedAs(s: State, d: Name, status: Status) {
    Closed(s, d) && s.jobs[d].status == status
  }

  ghost predicate AllClosed(s: State, deps: seq<Name>) {
    forall k :: 0 <= k < |deps| ==> Closed(s, deps[k])
  }

  /** All dependencies are closed, and none of them with status `status`. */
  ghost predicate NoneAs(s: State, deps: seq<Name>, status: Status) {
    forall k :: 0 <= k < |deps| ==> Closed(s, deps[k]) && s.jobs[deps[k]].status != status
  }

  ghost predicate AllAs(s: State, deps: seq<Name>, status: Status) {
    forall k :: 0 <= k < |deps| ==> ClosedAs(s, deps[k], status)
  }

  ghost predicate SomeBad(s: State, deps: seq<Name>) {
    exists k :: 0 <= k < |deps| && (ClosedAs(s, deps[k], Failed) || ClosedAs(s, deps[k], Skipped))
  }

  ghost predicate DepInv(c: Config, s: State, j: Name)
    requires j in s.jobs && j in c.deps
  {
    match PhaseOf(s.jobs[j])
    case Waits(i) => i <= |c.deps[j]| && AllClosed(s, c.deps[j][..i])
    case Canceling => s.cancelled
    case Cleared => NoneAs(s, c.deps[j], Canceled)
    case Skipping => SomeBad(s, c.deps[j])
    case Executing => AllAs(s, c.deps[j], Success)
  }

  ghost predicate SetupPassed(r: JobRec) {
    || InLoop(r.pc) || r.pc.EmitFinished? || r.pc.CallTeardown?
    || ((r.pc.StoreResult? || r.pc.MarkFailed? || r.pc.CloseDone? || r.pc.WgDone? || r.pc.Exited?)
        && (r.status == Success || r.status == Failed) && !r.hasError)
  }

  /** The runner has answered as configured, and no step was interrupted. */
  ghost predicate Faithful(c: Config, j: Name, r: JobRec) {
    && |r.results| == |r.done|
    && (forall k :: 0 <= k < |r.done| ==> r.done[k].outcome == c.outcome(j, k))
    && (r.pc.EmitStepDone? ==> r.pc.outcome == c.outcome(j, r.pc.i))
    && (r.hasError ==> !c.setupOk(j))
    && (SetupPassed(r) ==> c.setupOk(j))
  }

  ghost predicate JobInv(c: Config, s: State, j: Name)
    requires j in s.jobs && j in c.deps && j in c.steps
  {
    && LocalInv(c.steps[j], j, s.jobs[j])
    && Project(s.trace, j) == Script(s.jobs[j])
    && DepInv(c, s, j)
    && (!s.cancelled ==> Faithful(c, j, s.jobs[j]))
  }

  // ------------------------------------------------------------ the whole state

  ghost function Live(s: State): set<Name> {
    set j | j in s.jobs && !s.jobs[j].pc.Exited?
  }

  /** PipelineStarted, then acts of jobs only. */
  ghost predicate JobActsOnly(t: seq<Obs>) {
    t != [] && t[0] == PipelineStarted && forall i :: 0 < i < |t| ==> t[i].JobAct?
  }

  /** Nothing was cancelled as far as any job could tell. */
  ghost predicate Clean(c: Config, s: State) {
    forall j :: j in s.jobs ==> s.jobs[j].status != Canceled && Faithful(c, j, s.jobs[j])
  }

  ghost predicate VerdictOk(c: Config, s: State, res: PipelineResult) {
    && res.jobs == OrderedResults(c.order, s.jobs)
    && match res.status
       case Canceled => s.cancelled && res.hasError
       case Failed => Clean(c, s) &&
              exists j :: HasFailedResult(s, j) && res.hasError == s.jobs[j].result.value.hasError
       case Success => Clean(c, s) && (forall j :: j in s.jobs ==> !HasFailedResult(s, j)) && !res.hasError
       case _ => false
  }

  ghost predicate MainInv(c: Config, s: State) {
    match s.main
    case Waiting => JobActsOnly(s.trace)
    case Emitting(res) => JobActsOnly(s.trace) && Live(s) == {} && VerdictOk(c, s, res)
    case Returned(res) =>
      && Live(s) == {} && VerdictOk(c, s, res)
      && |s.trace| >= 2 && JobActsOnly(s.trace[..|s.trace| - 1])
      && s.trace[|s.trace| - 1] == PipelineFinished(res.status)
  }

  ghost predicate Inv(c: Config, s: State) {
    && WellFormed(c)
    && s.jobs.Keys == c.deps.Keys
    && (forall j :: j in s.jobs ==> JobInv(c, s, j))
    && s.wg == |Live(s)|
    && MainInv(c, s)
  }

  lemma SameKeys(c: Config)
    requires WellFormed(c)
    ensures c.steps.Keys == c.deps.Keys
  {
  }

  // ------------------------------------------------------------ a job's own move

  lemma LineLength(n: nat, j: Name, r: JobRec)
    requires LocalInv(n, j, r)
    ensures |r.stepStatus| == n
  {
    hide Green, ResultsOf;
  }

  /** A closed channel belongs to a job that has ended, with its result stored. */
  lemma ClosedHasEnded(n: nat, j: Name, r: JobRec)
    requires LocalInv(n, j, r)
    ensures r.closed <==> r.pc.WgDone? || r.pc.Exited?
    ensures r.closed ==> EndedWell(n, j, r)
  {
    hide Green, ResultsOf, StatusLine, StepsConserved, LastNotGreen, EndedWell;
    ClosedMeansEnded(n, j, r);
  }

  lemma ClosedMeansEnded(n: nat, j: Name, r: JobRec)
    requires LocalInv(n, j, r)
    ensures r.pc.WgDone? || r.pc.Exited? ==> EndedWell(n, j, r)
  {
  }

  /** While nothing is cancelled, the choice repeats what the runner is configured to answer. */
  ghost predicate Configured(c: Config, j: Name, r: JobRec, choice: Choice) {
    && (r.pc.CallSetup? ==> choice == SetupReturns(c.setupOk(j)))
    && (r.pc.InStep? && !choice.Write? ==> choice == RunReturns(c.outcome(j, r.pc.i)))
    && (choice.Abort? ==> !r.pc.Await?)
  }

  lemma FaithfulLoop(c: Config, j: Name, r: JobRec, depFailed: bool, choice: Choice)
    requires j in c.deps && j in c.steps && |r.stepStatus| == c.steps[j] && InLoop(r.pc)
    requires LocalInv(c.steps[j], j, r) && Faithful(c, j, r) && Configured(c, j, r, choice)
    ensures Faithful(c, j, JobStep(c, j, r, false, depFailed, choice).rec)
  {
    hide StatusLine, Green;
  }

  lemma FaithfulStart(c: Config, j: Name, r: JobRec, depFailed: bool, choice: Choice)
    requires j in c.deps && j in c.steps && |r.stepStatus| == c.steps[j]
    requires BeforeRun(r.pc) || r.pc.CallSetup? || r.pc.SetupTeardown? || r.pc.EmitSetupFailed?
    requires LocalInv(c.steps[j], j, r) && Faithful(c, j, r) && Configured(c, j, r, choice)
    ensures Faithful(c, j, JobStep(c, j, r, false, depFailed, choice).rec)
  {
    hide StatusLine, Green, LastNotGreen, StepsConserved, ResultsOf;
  }

  lemma FaithfulEnd(c: Config, j: Name, r: JobRec, depFailed: bool, choice: Choice)
    requires j in c.deps && j in c.steps && |r.stepStatus| == c.steps[j] && !InLoop(r.pc) && !BeforeRun(r.pc)
    requires !r.pc.CallSetup? && !r.pc.SetupTeardown? && !r.pc.EmitSetupFailed?
    requires LocalInv(c.steps[j], j, r) && Faithful(c, j, r)
    ensures Faithful(c, j, JobStep(c, j, r, false, depFailed, choice).rec)
  {
    hide StatusLine, Green, LastNotGreen, StepsConserved, ResultsOf;
  }

  lemma FaithfulMove(c: Config, j: Name, r: JobRec, depFailed: bool, choice: Choice)
    requires j in c.deps && j in c.steps && |r.stepStatus| == c.steps[j]
    requires LocalInv(c.steps[j], j, r) && Faithful(c, j, r) && Configured(c, j, r, choice)
    ensures Faithful(c, j, JobStep(c, j, r, false, depFailed, choice).rec)
  {
    hide LocalInv, Faithful, Configured, JobStep;
    if InLoop(r.pc) {
      FaithfulLoop(c, j, r, depFailed, choice);
    } else if BeforeRun(r.pc) || r.pc.CallSetup? || r.pc.SetupTeardown? || r.pc.EmitSetupFailed? {
      FaithfulStart(c, j, r, depFailed, choice);
    } else {
      FaithfulEnd(c, j, r, depFailed, choice);
    }
  }

  // --------------------------------------------------- what a move leaves alone

  /** Once a channel is closed its job's status and its entries in the shared maps are final. */
  ghost predicate Persists(s: State, t: State) {
    forall d :: Closed(s, d) ==>
      && Closed(t, d) && t.jobs[d].status == s.jobs[d].status
      && t.jobs[d].failedEntry == s.jobs[d].failedEntry && t.jobs[d].result == s.jobs[d].result
  }

  /** `t` is `s` after job `j` moved. */
  ghost predicate Moved(c: Config, s: State, j: Name, choice: Choice, t: State) {
    && j in s.jobs && CanMove(c, s, j, choice) && |s.jobs[j].stepStatus| == c.steps[j]
    && t == Next(c, s, JobMove(j, choice))
  }

  lemma MovedRec(c: Config, s: State, j: Name, choice: Choice, t: State)
    requires Moved(c, s, j, choice, t)
    ensures t.jobs.Keys == s.jobs.Keys && t.cancelled == s.cancelled && t.main == s.main
    ensures t.jobs[j] == MoveOf(c, s, j, choice).rec
    ensures forall k :: k in s.jobs && k != j ==> t.jobs[k] == s.jobs[k]
    ensures t.trace == s.trace + Tagged(j, MoveOf(c, s, j, choice).acts)
    ensures t.wg == if s.jobs[j].pc.WgDone? then s.wg - 1 else s.wg
  {
    hide JobStep, Tagged, CanMove;
  }

  lemma MoveKeepsClosed(c: Config, s: State, j: Name, choice: Choice)
    requires j in s.jobs && CanMove(c, s, j, choice) && |s.jobs[j].stepStatus| == c.steps[j]
    requires LocalInv(c.steps[j], j, s.jobs[j]) && s.jobs[j].closed
    ensures var q := MoveOf(c, s, j, choice).rec;
      q.closed && q.status == s.jobs[j].status && q.failedEntry == s.jobs[j].failedEntry && q.result == s.jobs[j].result
  {
    hide DepFailed, EndedWell, Green;
    ClosedHasEnded(c.steps[j], j, s.jobs[j]);
  }

  lemma MovePersists(c: Config, s: State, j: Name, choice: Choice, t: State)
    requires Moved(c, s, j, choice, t) && LocalInv(c.steps[j], j, s.jobs[j])
    ensures Persists(s, t)
  {
    hide LocalInv, CanMove, MoveOf, Next;
    MovedRec(c, s, j, choice, t);
    if s.jobs[j].closed { MoveKeepsClosed(c, s, j, choice); }
  }

  lemma DepInvStable(c: Config, s: State, t: State, k: Name)
    requires k in s.jobs && k in t.jobs && k in c.deps && PhaseOf(t.jobs[k]) == PhaseOf(s.jobs[k])
    requires Persists(s, t) && (s.cancelled ==> t.cancelled) && DepInv(c, s, k)
    ensures DepInv(c, t, k)
  {
    hide PhaseOf;
    match PhaseOf(s.jobs[k])
    case Skipping =>
      var i :| 0 <= i < |c.deps[k]| && (ClosedAs(s, c.deps[k][i], Failed) || ClosedAs(s, c.deps[k][i], Skipped));
      assert ClosedAs(t, c.deps[k][i], Failed) || ClosedAs(t, c.deps[k][i], Skipped);
    case _ =>
  }

  // ------------------------------------------- dependencies of the job that moves

  lemma ClosedAsCanceled(c: Config, s: State, d: Name)
    requires d in s.jobs && d in c.deps && d in c.steps && JobInv(c, s, d) && ClosedAs(s, d, Canceled)
    ensures s.cancelled
  {
    hide LocalInv, Script, Project, Faithful;
    ClosedHasEnded(c.steps[d], d, s.jobs[d]);
  }

  lemma ClosedStatus(c: Config, s: State, d: Name)
    requires d in s.jobs && d in c.deps && d in c.steps && JobInv(c, s, d) && Closed(s, d)
    ensures ClosedAs(s, d, Success) || ClosedAs(s, d, Failed) || ClosedAs(s, d, Skipped) || ClosedAs(s, d, Canceled)
    ensures s.jobs[d].failedEntry <==> ClosedAs(s, d, Failed) || ClosedAs(s, d, Skipped)
  {
    hide LocalInv, Script, Project, Faithful, DepInv;
    ClosedHasEnded(c.steps[d], d, s.jobs[d]);
  }

  ghost predicate AllJobs(c: Config, s: State) {
    && WellFormed(c) && s.jobs.Keys == c.deps.Keys
    && forall j :: j in s.jobs ==> JobInv(c, s, j)
  }

  lemma KnownDep(c: Config, s: State, j: Name, k: nat)
    requires AllJobs(c, s) && j in s.jobs && k < |c.deps[j]|
    ensures c.deps[j][k] in s.jobs && c.deps[j][k] in c.steps && JobInv(c, s, c.deps[j][k])
  {
    hide JobInv;
    assert c.deps[j][k] in c.deps[j];
  }

  /** The context check after the waits: not cancelled now means no dependency was. */
  lemma ClearsDeps(c: Config, s: State, j: Name)
    requires AllJobs(c, s) && j in s.jobs && !s.cancelled
    requires AllClosed(s, c.deps[j])
    ensures NoneAs(s, c.deps[j], Canceled)
  {
    hide JobInv, WellFormed;
    forall k | 0 <= k < |c.deps[j]| ensures Closed(s, c.deps[j][k]) && s.jobs[c.deps[j][k]].status != Canceled {
      KnownDep(c, s, j, k);
      if s.jobs[c.deps[j][k]].status == Canceled { ClosedAsCanceled(c, s, c.deps[j][k]); }
    }
  }

  /** The failedJobs lookup: a hit is a failed or skipped dependency, a miss means all succeeded. */
  lemma LookupDecides(c: Config, s: State, j: Name)
    requires AllJobs(c, s) && j in s.jobs && NoneAs(s, c.deps[j], Canceled)
    ensures if DepFailed(c, s, j) then SomeBad(s, c.deps[j]) else AllAs(s, c.deps[j], Success)
  {
    hide JobInv, WellFormed;
    forall k | 0 <= k < |c.deps[j]|
      ensures ClosedAs(s, c.deps[j][k], Success) || ClosedAs(s, c.deps[j][k], Failed)
           || ClosedAs(s, c.deps[j][k], Skipped)
      ensures s.jobs[c.deps[j][k]].failedEntry
           <==> ClosedAs(s, c.deps[j][k], Failed) || ClosedAs(s, c.deps[j][k], Skipped)
    {
      KnownDep(c, s, j, k);
      ClosedStatus(c, s, c.deps[j][k]);
    }
    if DepFailed(c, s, j) {
      var d :| d in c.deps[j] && d in s.jobs && s.jobs[d].failedEntry;
      var k :| 0 <= k < |c.deps[j]| && c.deps[j][k] == d;
      assert ClosedAs(s, c.deps[j][k], Failed) || ClosedAs(s, c.deps[j][k], Skipped);
    } else {
      forall k | 0 <= k < |c.deps[j]| ensures ClosedAs(s, c.deps[j][k], Success) {
        assert c.deps[j][k] in c.deps[j];
      }
    }
  }

  /** Where the phase of a job changes: at the waits and at the failedJobs lookup. */
  lemma NextPhase(c: Config, s: State, j: Name, choice: Choice)
    requires j in s.jobs && CanMove(c, s, j, choice) && |s.jobs[j].stepStatus| == c.steps[j]
    ensures s.jobs[j].pc.CheckDeps? ==>
      PhaseOf(MoveOf(c, s, j, choice).rec) == if DepFailed(c, s, j) then Skipping else Executing
    ensures s.jobs[j].pc.Await? ==> var i := s.jobs[j].pc.dep; var p := PhaseOf(MoveOf(c, s, j, choice).rec);
      || (p == Canceling && s.cancelled)
      || (p == Waits(i + 1) && i < |c.deps[j]| && Closed(s, c.deps[j][i]))
      || (p == Cleared && i >= |c.deps[j]| && !s.cancelled)
  {
    hide DepFailed;
  }

  lemma DepInvMoved(c: Config, s: State, j: Name, choice: Choice, t: State)
    requires AllJobs(c, s) && Moved(c, s, j, choice, t)
    ensures DepInv(c, t, j)
  {
    hide LocalInv, CanMove, Next, JobStep, Moved, Script, Project, Faithful, DepFailed, WellFormed, PhaseOf;
    MoveIsPossible(c, s, j, choice, t);
    MovedRec(c, s, j, choice, t);
    MovePersists(c, s, j, choice, t);
    AtPc(s, j);
    if s.jobs[j].pc.Await? {
      NextPhase(c, s, j, choice);
      AwaitMoved(c, s, j, t);
    } else if s.jobs[j].pc.CheckDeps? {
      NextPhase(c, s, j, choice);
      LookupDecides(c, s, j);
      BadPersists(c, s, j, t);
    } else {
      LocalStep(c, j, s.jobs[j], s.cancelled, DepFailed(c, s, j), choice);
      DepInvStable(c, s, t, j);
    }
  }

  lemma AtPc(s: State, j: Name)
    requires j in s.jobs
    ensures s.jobs[j].pc.Await? ==> PhaseOf(s.jobs[j]) == Waits(s.jobs[j].pc.dep)
    ensures s.jobs[j].pc.CheckDeps? ==> PhaseOf(s.jobs[j]) == Cleared
  {
  }

  lemma AwaitMoved(c: Config, s: State, j: Name, t: State)
    requires AllJobs(c, s) && j in s.jobs && j in t.jobs && Persists(s, t) && t.cancelled == s.cancelled
    requires s.jobs[j].pc.Await? && DepInv(c, s, j)
    requires var i := s.jobs[j].pc.dep; var p := PhaseOf(t.jobs[j]);
      || (p == Canceling && s.cancelled)
      || (p == Waits(i + 1) && i < |c.deps[j]| && Closed(s, c.deps[j][i]))
      || (p == Cleared && i >= |c.deps[j]| && !s.cancelled)
    ensures DepInv(c, t, j)
  {
    hide JobInv, WellFormed;
    var i, deps := s.jobs[j].pc.dep, c.deps[j];
    if PhaseOf(t.jobs[j]).Waits? {
      var upTo := deps[..i + 1];
      forall k | 0 <= k < |upTo| ensures Closed(t, upTo[k]) {
        if k < i { assert Closed(s, deps[..i][k]); }
      }
    } else if PhaseOf(t.jobs[j]).Cleared? {
      assert deps[..i] == deps;
      ClearsDeps(c, s, j);
    }
  }

  lemma BadPersists(c: Config, s: State, j: Name, t: State)
    requires j in c.deps && Persists(s, t)
    ensures SomeBad(s, c.deps[j]) ==> SomeBad(t, c.deps[j])
    ensures AllAs(s, c.deps[j], Success) ==> AllAs(t, c.deps[j], Success)
  {
    if SomeBad(s, c.deps[j]) {
      var i :| 0 <= i < |c.deps[j]| && (ClosedAs(s, c.deps[j][i], Failed) || ClosedAs(s, c.deps[j][i], Skipped));
      assert ClosedAs(t, c.deps[j][i], Failed) || ClosedAs(t, c.deps[j][i], Skipped);
    }
  }

  // --------------------------------------------------- every step keeps it all

  lemma JobInvMoved(c: Config, s: State, j: Name, choice: Choice, t: State)
    requires AllJobs(c, s) && Moved(c, s, j, choice, t)
    ensures j in t.jobs && JobInv(c, t, j)
  {
    hide LocalInv, CanMove, Next, Script, Faithful, DepFailed, WellFormed, PhaseOf, JobStep, DepInv, Moved, Configured;
    MoveIsPossible(c, s, j, choice, t);
    MovedRec(c, s, j, choice, t);
    DepInvMoved(c, s, j, choice, t);
    LocalStep(c, j, s.jobs[j], s.cancelled, DepFailed(c, s, j), choice);
    ProjectTagged(s.trace, j, MoveOf(c, s, j, choice).acts, j);
    if !s.cancelled {
      FaithfulMove(c, j, s.jobs[j], DepFailed(c, s, j), choice);
    }
  }

  lemma MoveIsPossible(c: Config, s: State, j: Name, choice: Choice, t: State)
    requires Moved(c, s, j, choice, t)
    ensures j in s.jobs && j in c.deps && j in c.steps && CanMove(c, s, j, choice)
         && |s.jobs[j].stepStatus| == c.steps[j]
    ensures !s.cancelled ==> Configured(c, j, s.jobs[j], choice)
  {
    hide JobStep;
  }

  lemma JobInvOther(c: Config, s: State, j: Name, choice: Choice, t: State, k: Name)
    requires AllJobs(c, s) && Moved(c, s, j, choice, t) && k in s.jobs && k != j
    ensures k in t.jobs && JobInv(c, t, k)
  {
    hide LocalInv, CanMove, Next, Script, Faithful, DepFailed, WellFormed, PhaseOf, JobStep, DepInv, Moved, MoveOf;
    MoveIsPossible(c, s, j, choice, t);
    MovedRec(c, s, j, choice, t);
    MovePersists(c, s, j, choice, t);
    DepInvStable(c, s, t, k);
    ProjectTagged(s.trace, j, MoveOf(c, s, j, choice).acts, k);
  }

  lemma LiveMoved(c: Config, s: State, j: Name, choice: Choice, t: State)
    requires Moved(c, s, j, choice, t) && s.wg == |Live(s)| && LocalInv(c.steps[j], j, s.jobs[j])
    ensures t.wg == |Live(t)|
    ensures j in Live(s)
  {
    hide Moved, JobStep, DepFailed, CanMove, LocalInv, Script, PhaseOf;
    MoveIsPossible(c, s, j, choice, t);
    MovedRec(c, s, j, choice, t);
    MoveIsLive(c, s, j, choice, t);
    LocalStep(c, j, s.jobs[j], s.cancelled, DepFailed(c, s, j), choice);
    if s.jobs[j].pc.WgDone? {
      assert Live(t) == Live(s) - {j};
    } else {
      assert Live(t) == Live(s);
    }
  }

  lemma MainMoved(c: Config, s: State, j: Name, choice: Choice, t: State)
    requires Moved(c, s, j, choice, t) && MainInv(c, s)
    ensures MainInv(c, t)
  {
    hide JobStep, CanMove, VerdictOk;
    MovedRec(c, s, j, choice, t);
    MoveIsLive(c, s, j, choice, t);
    assert s.main.Waiting?;
  }

  lemma MoveIsLive(c: Config, s: State, j: Name, choice: Choice, t: State)
    requires Moved(c, s, j, choice, t)
    ensures j in Live(s)
  {
    hide JobStep;
  }

  lemma JobIsLocal(c: Config, s: State, j: Name)
    requires j in s.jobs && j in c.deps && j in c.steps && JobInv(c, s, j)
    ensures LocalInv(c.steps[j], j, s.jobs[j])
  {
  }

  lemma InvMove(c: Config, s: State, j: Name, choice: Choice, t: State)
    requires Inv(c, s) && Moved(c, s, j, choice, t)
    ensures Inv(c, t)
  {
    hide JobInv, Moved, WellFormed, MainInv, Live;
    SameKeys(c);
    MoveIsPossible(c, s, j, choice, t);
    MovedRec(c, s, j, choice, t);
    JobInvMoved(c, s, j, choice, t);
    forall k | k in s.jobs && k != j ensures k in t.jobs && JobInv(c, t, k) {
      JobInvOther(c, s, j, choice, t, k);
    }
    JobIsLocal(c, s, j);
    LiveMoved(c, s, j, choice, t);
    MainMoved(c, s, j, choice, t);
  }

  lemma InvCancel(c: Config, s: State)
    requires Inv(c, s)
    ensures Inv(c, s.(cancelled := true))
  {
    hide LocalInv, Script, Project, Faithful, WellFormed, JobActsOnly, OrderedResults, PhaseOf;
    SameKeys(c);
    var t := s.(cancelled := true);
    assert Live(t) == Live(s);
    forall j | j in s.jobs ensures JobInv(c, t, j) {
      DepInvStable(c, s, t, j);
    }
    MainCancel(c, s);
  }

  lemma MainCancel(c: Config, s: State)
    requires MainInv(c, s)
    ensures MainInv(c, s.(cancelled := true))
  {
    hide JobActsOnly, OrderedResults, Faithful;
    var t := s.(cancelled := true);
    assert Live(t) == Live(s);
    assert Clean(c, t) == Clean(c, s);
    if s.main.Emitting? || s.main.Returned? {
      if s.main.result.status == Failed {
        var j :| HasFailedResult(s, j) && s.main.result.hasError == s.jobs[j].result.value.hasError;
        assert HasFailedResult(t, j);
      } else if s.main.result.status == Success {
        forall j | j in t.jobs ensures !HasFailedResult(t, j) { assert !HasFailedResult(s, j); }
      }
    }
  }

  /** The final check: with every goroutine gone and nothing cancelled, no job was canceled. */
  lemma CleanAtEnd(c: Config, s: State)
    requires AllJobs(c, s) && !s.cancelled && Live(s) == {}
    ensures Clean(c, s)
  {
    hide Script, Project, Faithful, WellFormed, JobInv, LocalInv;
    SameKeys(c);
    forall j | j in s.jobs ensures s.jobs[j].status != Canceled && Faithful(c, j, s.jobs[j]) {
      assert j !in Live(s);
      EndedClean(c, s, j);
    }
  }

  lemma EndedClean(c: Config, s: State, j: Name)
    requires j in s.jobs && j in c.deps && j in c.steps && JobInv(c, s, j) && !s.cancelled && s.jobs[j].pc.Exited?
    ensures s.jobs[j].status != Canceled && Faithful(c, j, s.jobs[j])
  {
    hide Script, Project, Faithful, LocalInv;
  }

  lemma InvDecide(c: Config, s: State, first: Option<Name>)
    requires Inv(c, s) && Enabled(c, s, Decide(first))
    ensures Inv(c, Next(c, s, Decide(first)))
  {
    hide JobInv, WellFormed, JobActsOnly, OrderedResults, Clean, HasFailedResult;
    SameKeys(c);
    var t := Next(c, s, Decide(first));
    assert Live(t) == Live(s) == {};
    if !s.cancelled {
      CleanAtEnd(c, s);
      CleanSame(c, s, t);
    }
    forall j | j in s.jobs ensures JobInv(c, t, j) { JobInvSame(c, s, t, j); }
    SameFailed(s, t);
  }

  lemma CleanSame(c: Config, s: State, t: State)
    requires s.jobs == t.jobs && Clean(c, s)
    ensures Clean(c, t)
  {
    hide Faithful;
  }

  lemma SameFailed(s: State, t: State)
    requires s.jobs == t.jobs
    ensures forall j :: HasFailedResult(s, j) <==> HasFailedResult(t, j)
  {
  }

  lemma JobInvSame(c: Config, s: State, t: State, j: Name)
    requires s.jobs == t.jobs && s.cancelled == t.cancelled && Project(t.trace, j) == Project(s.trace, j)
    requires j in s.jobs && j in c.deps && j in c.steps && JobInv(c, s, j)
    ensures JobInv(c, t, j)
  {
    hide LocalInv, Script, Project, Faithful, PhaseOf;
    DepInvStable(c, s, t, j);
  }

  lemma InvFinish(c: Config, s: State)
    requires Inv(c, s) && s.main.Emitting?
    ensures Inv(c, Next(c, s, Finish))
  {
    hide JobInv, WellFormed, JobActsOnly, OrderedResults, Clean, HasFailedResult, Project;
    SameKeys(c);
    var t := Next(c, s, Finish);
    assert Live(t) == Live(s);
    forall j | j in s.jobs ensures JobInv(c, t, j) {
      ProjectOne(s.trace, PipelineFinished(s.main.result.status), j);
      JobInvSame(c, s, t, j);
    }
    if s.main.result.status != Canceled { CleanSame(c, s, t); }
    SameFailed(s, t);
    assert t.trace[..|t.trace| - 1] == s.trace;
    StartsSomewhere(s.trace);
  }

  lemma StartsSomewhere(t: seq<Obs>)
    requires JobActsOnly(t)
    ensures t != []
  {
  }

  lemma InvNext(c: Config, s: State, l: Label)
    requires Inv(c, s) && Enabled(c, s, l)
    ensures Inv(c, Next(c, s, l))
  {
    hide Inv, MoveOf, Verdict, JobStep;
    match l
    case JobMove(j, choice) => InvMove(c, s, j, choice, Next(c, s, l));
    case Cancel => InvCancel(c, s);
    case Decide(first) => InvDecide(c, s, first);
    case Finish => InvFinish(c, s);
  }

  lemma InvInit(c: Config)
    requires WellFormed(c)
    ensures c.steps.Keys == c.deps.Keys && Inv(c, Init(c))
  {
    hide WellFormed, JobInv, Live;
    InitLive(c);
    forall j | j in c.deps ensures JobInv(c, Init(c), j) { InitJob(c, j); }
  }

  lemma InitJob(c: Config, j: Name)
    requires c.steps.Keys == c.deps.Keys && j in c.deps
    ensures JobInv(c, Init(c), j)
  {
    assert Project([PipelineStarted], j) == [];
    assert InitRec(c.steps[j]).stepStatus == StatusLine(c.steps[j], []);
  }

  lemma InitLive(c: Config)
    requires WellFormed(c)
    ensures |Live(Init(c))| == |c.order|
    ensures c.steps.Keys == c.deps.Keys
  {
    DistinctSize(c.order);
    assert Live(Init(c)) == Elements(c.order);
  }

  /** Safety over whole runs: the invariant holds in every reachable state. */
  lemma {:induction false} InvRun(c: Config, states: seq<State>, labels: seq<Label>)
    requires WellFormed(c) && IsRun(c, states, labels)
    ensures Inv(c, states[|labels|])
  {
    hide WellFormed, Inv, Enabled, Next, Init;
    SameKeys(c);
    if labels == [] {
      InvInit(c);
    } else {
      var k := |labels| - 1;
      assert IsRun(c, states[..k + 1], labels[..k]);
      InvRun(c, states[..k + 1], labels[..k]);
      assert states[..k + 1][k] == states[k];
      InvNext(c, states[k], labels[k]);
    }
  }

  lemma InvReachable(c: Config, s: State)
    requires WellFormed(c) && Reachable(c, s)
    ensures Inv(c, s)
  {
    hide WellFormed, Inv, Enabled, Next, Init;
    SameKeys(c);
    var states, labels :| IsRun(c, states, labels) && states[|labels|] == s;
    InvRun(c, states, labels);
  }
}
