/** What holds inside one job's goroutine at every program point, and the exact sequence of
    events and runner calls it has produced by then. */
module EngineLocal {
  import opened Names
  import opened Model
  import opened Engine

  // ------------------------------------------------------ steps and their results

  ghost predicate Green(results: seq<StepResult>) {
    forall k :: 0 <= k < |results| ==> StatusOf(results[k]) == Success
  }

  function ResultsOf(done: seq<StepRun>): (r: seq<StepResult>)
    ensures |r| == |done| && forall k :: 0 <= k < |done| ==> r[k] == Ran(done[k].outcome)
  {
    seq(|done|, k requires 0 <= k < |done| => Ran(done[k].outcome))
  }

  /** The statuses of `n` steps when the first of them have these results and no other was touched. */
  function StatusLine(n: nat, results: seq<StepResult>): (line: seq<Status>)
    ensures |line| == n
    ensures forall k :: 0 <= k < n ==> line[k] == if k < |results| then StatusOf(results[k]) else Pending
  {
    seq(n, k requires 0 <= k < n => if k < |results| then StatusOf(results[k]) else Pending)
  }

  /** Step results are successes, then at most one failure or interruption; they match the calls
      that were made; and the step statuses match them. */
  ghost predicate StepsConserved(n: nat, r: JobRec) {
    && |r.results| <= n
    && (r.results == ResultsOf(r.done) || r.results == ResultsOf(r.done) + [Interrupted])
    && (r.results != [] ==> Green(r.results[..|r.results| - 1]))
    && r.stepStatus == StatusLine(n, r.results)
  }

  ghost predicate LastNotGreen(results: seq<StepResult>) {
    results != [] && StatusOf(results[|results| - 1]) != Success
  }

  // ------------------------------------------------------------ the invariant

  ghost predicate Untouched(n: nat, r: JobRec) {
    r.results == [] && r.done == [] && !r.hasError && r.stepStatus == StatusLine(n, [])
  }

  ghost predicate Open(r: JobRec) {
    r.result.None? && !r.closed && !r.failedEntry
  }

  /** In the step loop, about to deal with step `i`. */
  ghost predicate AtStep(n: nat, r: JobRec, i: nat, line: seq<Status>) {
    && Open(r) && !r.hasError && r.status == Running
    && |r.done| == i <= n && r.results == ResultsOf(r.done) && Green(r.results)
    && r.stepStatus == line
  }

  ghost predicate DuringStep(n: nat, r: JobRec, i: nat) {
    i < n && AtStep(n, r, i, StatusLine(n, r.results)[i := Running])
  }

  /** The job ran: it succeeded with all its steps, or failed in Setup, or at its last attempted step. */
  ghost predicate Executed(n: nat, r: JobRec) {
    && StepsConserved(n, r)
    && (r.status == Success || r.status == Failed)
    && (r.status == Success ==> !r.hasError && |r.results| == n && Green(r.results))
    && (r.status == Failed && r.hasError ==> r.results == [] && r.done == [])
    && (r.status == Failed && !r.hasError ==> LastNotGreen(r.results))
  }

  ghost predicate EndedWell(n: nat, j: Name, r: JobRec) {
    && (r.status == Success || r.status == Failed || r.status == Skipped || r.status == Canceled)
    && (r.status == Success || r.status == Failed ==> Executed(n, r))
    && (r.status == Skipped || r.status == Canceled ==> Untouched(n, r))
    && r.result == Some(JobResult(j, r.status, r.results, r.hasError))
    && (r.failedEntry <==> r.status == Failed || r.status == Skipped)
  }

  ghost predicate LocalInv(n: nat, j: Name, r: JobRec) {
    match r.pc
    case Await(_) => Untouched(n, r) && Open(r) && r.status == Pending
    case CheckDeps => Untouched(n, r) && Open(r) && r.status == Pending
    case EmitSkipped => Untouched(n, r) && Open(r) && r.status == Pending
    case EmitStarted => Untouched(n, r) && Open(r) && r.status == Pending
    case StoreCanceled => Untouched(n, r) && Open(r) && r.status == Canceled
    case MarkSkipped => Untouched(n, r) && Open(r) && r.status == Skipped
    case StoreSkipped => Untouched(n, r) && r.result.None? && !r.closed && r.failedEntry && r.status == Skipped
    case CallSetup => Untouched(n, r) && Open(r) && r.status == Running
    case SetupTeardown => Executed(n, r) && Open(r) && r.status == Failed && r.hasError
    case EmitSetupFailed => Executed(n, r) && Open(r) && r.status == Failed && r.hasError
    case NextStep(i) => AtStep(n, r, i, StatusLine(n, r.results))
    case EmitStep(i) => DuringStep(n, r, i)
    case CallStep(i) => DuringStep(n, r, i)
    case InStep(i, _, _) => DuringStep(n, r, i)
    case EmitStepDone(i, _, _) => DuringStep(n, r, i)
    case EmitFinished(ok) =>
      && StepsConserved(n, r) && Open(r) && !r.hasError && r.status == Running
      && (if ok then |r.results| == n && Green(r.results) else LastNotGreen(r.results))
    case CallTeardown => Executed(n, r) && Open(r) && !r.hasError
    case StoreResult => Executed(n, r) && Open(r)
    case MarkFailed =>
      Executed(n, r) && r.status == Failed && !r.closed && !r.failedEntry
      && r.result == Some(JobResult(j, r.status, r.results, r.hasError))
    case CloseDone => EndedWell(n, j, r) && !r.closed
    case WgDone => EndedWell(n, j, r) && r.closed
    case Exited => EndedWell(n, j, r) && r.closed
  }

  // --------------------------------------------------------------- the script

  function Logs(i: nat, log: seq<Bytes>): (a: seq<Act>)
    ensures |a| == |log| && forall k :: 0 <= k < |log| ==> a[k] == StepLog(i, log[k])
  {
    seq(|log|, k requires 0 <= k < |log| => StepLog(i, log[k]))
  }

  /** A step that has been started and called and has written `log`. */
  function StepSoFar(i: nat, log: seq<Bytes>): seq<Act> {
    [StepStarted(i), RunStepCall(i)] + Logs(i, log)
  }

  function StepBlock(i: nat, run: StepRun): seq<Act> {
    StepSoFar(i, run.log) + [StepFinished(i, StatusOf(Ran(run.outcome)), ExitCodeOf(run.outcome))]
  }

  /** The blocks of all finished steps, in step order. */
  function Blocks(done: seq<StepRun>): seq<Act> {
    if done == [] then []
    else Blocks(done[..|done| - 1]) + StepBlock(|done| - 1, done[|done| - 1])
  }

  function Begun(done: seq<StepRun>): seq<Act> {
    [JobStarted, SetupCall] + Blocks(done)
  }

  /** Everything a goroutine does before it closes its channel, given how its job ended. */
  function Story(r: JobRec): seq<Act> {
    match r.status
    case Skipped => [JobSkipped]
    case Success => Begun(r.done) + [JobFinished(Success), TeardownCall]
    case Failed =>
      if r.hasError then [JobStarted, SetupCall, TeardownCall, JobFinished(Failed)]
      else Begun(r.done) + [JobFinished(Failed), TeardownCall]
    case _ => []
  }

  /** Everything the goroutine has done by the time it reaches its program counter. */
  function Script(r: JobRec): seq<Act> {
    match r.pc
    case MarkSkipped => [JobSkipped]
    case StoreSkipped => [JobSkipped]
    case CallSetup => [JobStarted]
    case SetupTeardown => [JobStarted, SetupCall]
    case EmitSetupFailed => [JobStarted, SetupCall, TeardownCall]
    case NextStep(_) => Begun(r.done)
    case EmitStep(_) => Begun(r.done)
    case CallStep(i) => Begun(r.done) + [StepStarted(i)]
    case InStep(i, log, _) => Begun(r.done) + StepSoFar(i, log)
    case EmitStepDone(i, log, _) => Begun(r.done) + StepSoFar(i, log)
    case EmitFinished(_) => Begun(r.done)
    case CallTeardown => Begun(r.done) + [JobFinished(r.status)]
    case StoreResult => Story(r)
    case MarkFailed => Story(r)
    case CloseDone => Story(r)
    case WgDone => Story(r) + [DoneClosed]
    case Exited => Story(r) + [DoneClosed]
    case _ => []
  }

  // ------------------------------------------- one step keeps both, phase by phase

  ghost predicate BeforeRun(pc: Pc) {
    pc.Await? || pc.StoreCanceled? || pc.CheckDeps?
    || pc.EmitSkipped? || pc.MarkSkipped? || pc.StoreSkipped? || pc.EmitStarted?
  }

  ghost predicate InLoop(pc: Pc) {
    pc.NextStep? || pc.EmitStep? || pc.CallStep? || pc.InStep? || pc.EmitStepDone?
  }

  /** What the dependencies of a job must look like, by how far the job has come. */
  datatype Phase = Waits(dep: nat) | Canceling | Cleared | Skipping | Executing

  function PhaseOf(r: JobRec): Phase {
    match r.pc
    case Await(i) => Waits(i)
    case StoreCanceled => Canceling
    case CheckDeps => Cleared
    case EmitSkipped => Skipping
    case MarkSkipped => Skipping
    case StoreSkipped => Skipping
    case _ =>
      if r.pc.CloseDone? || r.pc.WgDone? || r.pc.Exited? then
        if r.status == Canceled then Canceling else if r.status == Skipped then Skipping else Executing
      else Executing
  }

  /** `m` is a step from `r` that keeps the invariant and extends the script by its acts. The phase
      changes only at the waits and at the failedJobs lookup, and the goroutine exits only from WgDone. */
  ghost predicate Good(n: nat, j: Name, r: JobRec, m: Move) {
    && LocalInv(n, j, m.rec) && Script(m.rec) == Script(r) + m.acts
    && (PhaseOf(m.rec) == PhaseOf(r) || r.pc.Await? || r.pc.CheckDeps?)
    && (m.rec.pc.Exited? <==> r.pc.WgDone? || r.pc.Exited?)
  }

  lemma StepBeforeRun(c: Config, j: Name, r: JobRec, cancelled: bool, depFailed: bool, choice: Choice)
    requires j in c.deps && j in c.steps && |r.stepStatus| == c.steps[j]
    requires LocalInv(c.steps[j], j, r) && BeforeRun(r.pc)
    ensures Good(c.steps[j], j, r, JobStep(c, j, r, cancelled, depFailed, choice))
  {
    hide StatusLine, ResultsOf, Green;
  }

  lemma StepSetup(c: Config, j: Name, r: JobRec, cancelled: bool, depFailed: bool, choice: Choice)
    requires j in c.deps && j in c.steps && |r.stepStatus| == c.steps[j]
    requires LocalInv(c.steps[j], j, r) && (r.pc.CallSetup? || r.pc.SetupTeardown? || r.pc.EmitSetupFailed?)
    ensures Good(c.steps[j], j, r, JobStep(c, j, r, cancelled, depFailed, choice))
  {
    var m := JobStep(c, j, r, cancelled, depFailed, choice);
    if r.pc.CallSetup? {
      assert r.results == ResultsOf(r.done);
      assert Green([]);
      if m.rec.pc.NextStep? { assert Begun([]) == [JobStarted] + [SetupCall]; }
    }
  }

  lemma LineAdvances(n: nat, results: seq<StepResult>, r: StepResult)
    requires |results| < n
    ensures StatusLine(n, results)[|results| := StatusOf(r)] == StatusLine(n, results + [r])
    ensures StatusLine(n, results)[|results| := Running][|results| := StatusOf(r)] == StatusLine(n, results + [r])
  {
  }

  lemma ResultsAdvance(done: seq<StepRun>, run: StepRun)
    ensures ResultsOf(done + [run]) == ResultsOf(done) + [Ran(run.outcome)]
  {
  }

  lemma BlocksAdvance(done: seq<StepRun>, run: StepRun)
    ensures Begun(done + [run]) == Begun(done) + StepBlock(|done|, run)
  {
    assert (done + [run])[..|done|] == done;
  }

  lemma LoopConserves(n: nat, r: JobRec, q: JobRec)
    requires AtStep(n, r, |r.results|, StatusLine(n, r.results))
    requires q.results == r.results && q.done == r.done && q.stepStatus == r.stepStatus
    ensures StepsConserved(n, q)
  {
    if r.results != [] { assert Green(r.results[..|r.results| - 1]); }
  }

  lemma InterruptConserves(n: nat, r: JobRec, q: JobRec)
    requires AtStep(n, r, |r.results|, StatusLine(n, r.results)) && |r.results| < n
    requires q.results == r.results + [Interrupted] && q.done == r.done
         && q.stepStatus == r.stepStatus[|r.results| := Canceled]
    ensures StepsConserved(n, q) && LastNotGreen(q.results)
  {
    LineAdvances(n, r.results, Interrupted);
    assert q.results[..|r.results|] == r.results;
  }

  lemma HeadInterrupted(c: Config, j: Name, r: JobRec, depFailed: bool, choice: Choice)
    requires j in c.deps && j in c.steps && |r.stepStatus| == c.steps[j]
    requires LocalInv(c.steps[j], j, r) && r.pc.NextStep? && r.pc.i < c.steps[j]
    ensures Good(c.steps[j], j, r, JobStep(c, j, r, true, depFailed, choice))
  {
    hide Begun, StepsConserved, LastNotGreen, Green, StatusLine, ResultsOf;
    InterruptConserves(c.steps[j], r, JobStep(c, j, r, true, depFailed, choice).rec);
  }

  lemma HeadGoesOn(c: Config, j: Name, r: JobRec, cancelled: bool, depFailed: bool, choice: Choice)
    requires j in c.deps && j in c.steps && |r.stepStatus| == c.steps[j]
    requires LocalInv(c.steps[j], j, r) && r.pc.NextStep? && (r.pc.i >= c.steps[j] || !cancelled)
    ensures Good(c.steps[j], j, r, JobStep(c, j, r, cancelled, depFailed, choice))
  {
    hide Begun, StepsConserved, LastNotGreen, Green, StatusLine, ResultsOf;
    if r.pc.i >= c.steps[j] { LoopConserves(c.steps[j], r, JobStep(c, j, r, cancelled, depFailed, choice).rec); }
  }

  lemma StepHead(c: Config, j: Name, r: JobRec, cancelled: bool, depFailed: bool, choice: Choice)
    requires j in c.deps && j in c.steps && |r.stepStatus| == c.steps[j]
    requires LocalInv(c.steps[j], j, r) && r.pc.NextStep?
    ensures Good(c.steps[j], j, r, JobStep(c, j, r, cancelled, depFailed, choice))
  {
    hide LocalInv, Good, JobStep;
    if r.pc.i < c.steps[j] && cancelled {
      HeadInterrupted(c, j, r, depFailed, choice);
    } else {
      HeadGoesOn(c, j, r, cancelled, depFailed, choice);
    }
  }

  lemma StepCall(c: Config, j: Name, r: JobRec, cancelled: bool, depFailed: bool, choice: Choice)
    requires j in c.deps && j in c.steps && |r.stepStatus| == c.steps[j]
    requires LocalInv(c.steps[j], j, r) && (r.pc.EmitStep? || r.pc.CallStep? || r.pc.InStep?)
    ensures Good(c.steps[j], j, r, JobStep(c, j, r, cancelled, depFailed, choice))
  {
    hide Begun, Green, StatusLine, ResultsOf;
    if r.pc.CallStep? {
      assert StepSoFar(r.pc.i, []) == [StepStarted(r.pc.i)] + [RunStepCall(r.pc.i)];
      assert Begun(r.done) + StepSoFar(r.pc.i, []) == Begun(r.done) + [StepStarted(r.pc.i)] + [RunStepCall(r.pc.i)];
    } else if r.pc.InStep? && choice.Write? {
      var i, log := r.pc.i, r.pc.log;
      assert StepSoFar(i, log + [choice.data]) == StepSoFar(i, log) + [StepLog(i, choice.data)];
      assert Begun(r.done) + StepSoFar(i, log + [choice.data])
           == Begun(r.done) + StepSoFar(i, log) + [StepLog(i, choice.data)];
    }
  }

  /** A returned step is recorded in the results, the statuses and the history alike. */
  lemma StepRecorded(n: nat, r: JobRec, i: nat, run: StepRun)
    requires DuringStep(n, r, i)
    ensures |r.results| == i
    ensures r.stepStatus[i := StatusOf(Ran(run.outcome))] == StatusLine(n, r.results + [Ran(run.outcome)])
    ensures r.results + [Ran(run.outcome)] == ResultsOf(r.done + [run])
    ensures Green((r.results + [Ran(run.outcome)])[..i])
    ensures Passed(run.outcome) ==> Green(r.results + [Ran(run.outcome)])
    ensures !Passed(run.outcome) ==> LastNotGreen(r.results + [Ran(run.outcome)])
  {
    LineAdvances(n, r.results, Ran(run.outcome));
    ResultsAdvance(r.done, run);
    assert (r.results + [Ran(run.outcome)])[..i] == r.results;
  }

  lemma BlockAdvances(done: seq<StepRun>, run: StepRun)
    ensures Begun(done + [run])
         == Begun(done) + StepSoFar(|done|, run.log)
            + [StepFinished(|done|, StatusOf(Ran(run.outcome)), ExitCodeOf(run.outcome))]
  {
    BlocksAdvance(done, run);
  }

  lemma ReturnedTells(c: Config, j: Name, r: JobRec, cancelled: bool, depFailed: bool, choice: Choice)
    requires j in c.deps && j in c.steps && |r.stepStatus| == c.steps[j]
    requires LocalInv(c.steps[j], j, r) && r.pc.EmitStepDone?
    ensures var m := JobStep(c, j, r, cancelled, depFailed, choice); Script(m.rec) == Script(r) + m.acts
  {
    hide Begun, StepSoFar, Green, StatusLine, ResultsOf, StatusOf, ExitCodeOf;
    BlockAdvances(r.done, StepRun(r.pc.log, r.pc.outcome));
  }

  lemma ReturnedPassed(c: Config, j: Name, r: JobRec, cancelled: bool, depFailed: bool, choice: Choice)
    requires j in c.deps && j in c.steps && |r.stepStatus| == c.steps[j]
    requires LocalInv(c.steps[j], j, r) && r.pc.EmitStepDone?
    requires Passed(r.pc.outcome)
    ensures LocalInv(c.steps[j], j, JobStep(c, j, r, cancelled, depFailed, choice).rec)
  {
    hide Green, StatusLine, ResultsOf, LastNotGreen, StatusOf, ExitCodeOf, Passed;
    StepRecorded(c.steps[j], r, r.pc.i, StepRun(r.pc.log, r.pc.outcome));
  }

  lemma ReturnedFailed(c: Config, j: Name, r: JobRec, cancelled: bool, depFailed: bool, choice: Choice)
    requires j in c.deps && j in c.steps && |r.stepStatus| == c.steps[j]
    requires LocalInv(c.steps[j], j, r) && r.pc.EmitStepDone?
    requires !Passed(r.pc.outcome)
    ensures LocalInv(c.steps[j], j, JobStep(c, j, r, cancelled, depFailed, choice).rec)
  {
    hide Green, StatusLine, ResultsOf, LastNotGreen, StatusOf, ExitCodeOf, Passed;
    StepRecorded(c.steps[j], r, r.pc.i, StepRun(r.pc.log, r.pc.outcome));
  }

  lemma StepReturned(c: Config, j: Name, r: JobRec, cancelled: bool, depFailed: bool, choice: Choice)
    requires j in c.deps && j in c.steps && |r.stepStatus| == c.steps[j]
    requires LocalInv(c.steps[j], j, r) && r.pc.EmitStepDone?
    ensures Good(c.steps[j], j, r, JobStep(c, j, r, cancelled, depFailed, choice))
  {
    hide LocalInv, Script, StatusOf, ExitCodeOf, Passed;
    ReturnedTells(c, j, r, cancelled, depFailed, choice);
    if Passed(r.pc.outcome) {
      ReturnedPassed(c, j, r, cancelled, depFailed, choice);
    } else {
      ReturnedFailed(c, j, r, cancelled, depFailed, choice);
    }
  }

  lemma SameSteps(n: nat, r: JobRec, q: JobRec)
    requires q.stepStatus == r.stepStatus && q.results == r.results && q.done == r.done
    ensures StepsConserved(n, q) == StepsConserved(n, r)
  {
  }

  lemma StepFinish(c: Config, j: Name, r: JobRec, cancelled: bool, depFailed: bool, choice: Choice)
    requires j in c.deps && j in c.steps && |r.stepStatus| == c.steps[j]
    requires LocalInv(c.steps[j], j, r)
    requires r.pc.EmitFinished? || r.pc.CallTeardown?
    ensures Good(c.steps[j], j, r, JobStep(c, j, r, cancelled, depFailed, choice))
  {
    hide Begun, Green, StatusLine, ResultsOf, StepsConserved, LastNotGreen;
    SameSteps(c.steps[j], r, JobStep(c, j, r, cancelled, depFailed, choice).rec);
    if r.pc.CallTeardown? {
      assert Begun(r.done) + [JobFinished(r.status)] + [TeardownCall]
           == Begun(r.done) + [JobFinished(r.status), TeardownCall];
    }
  }

  lemma StepStore(c: Config, j: Name, r: JobRec, cancelled: bool, depFailed: bool, choice: Choice)
    requires j in c.deps && j in c.steps && |r.stepStatus| == c.steps[j]
    requires LocalInv(c.steps[j], j, r)
    requires r.pc.StoreResult? || r.pc.MarkFailed?
    ensures Good(c.steps[j], j, r, JobStep(c, j, r, cancelled, depFailed, choice))
  {
    hide Story, Green, StatusLine, ResultsOf, StepsConserved, LastNotGreen;
    StorySame(r, JobStep(c, j, r, cancelled, depFailed, choice).rec);
    ConservedSame(c.steps[j], r, JobStep(c, j, r, cancelled, depFailed, choice).rec);
  }

  lemma StepExit(c: Config, j: Name, r: JobRec, cancelled: bool, depFailed: bool, choice: Choice)
    requires j in c.deps && j in c.steps && |r.stepStatus| == c.steps[j]
    requires LocalInv(c.steps[j], j, r)
    requires r.pc.CloseDone? || r.pc.WgDone? || r.pc.Exited?
    ensures Good(c.steps[j], j, r, JobStep(c, j, r, cancelled, depFailed, choice))
  {
    hide Story, Executed, Untouched;
    StorySame(r, JobStep(c, j, r, cancelled, depFailed, choice).rec);
    ConservedSame(c.steps[j], r, JobStep(c, j, r, cancelled, depFailed, choice).rec);
  }

  ghost predicate SameWork(r: JobRec, q: JobRec) {
    q.status == r.status && q.stepStatus == r.stepStatus && q.results == r.results
    && q.hasError == r.hasError && q.done == r.done
  }

  lemma StorySame(r: JobRec, q: JobRec)
    requires SameWork(r, q)
    ensures Story(q) == Story(r)
  {
  }

  lemma ConservedSame(n: nat, r: JobRec, q: JobRec)
    requires SameWork(r, q)
    ensures StepsConserved(n, q) == StepsConserved(n, r)
    ensures Executed(n, q) == Executed(n, r)
    ensures Untouched(n, q) == Untouched(n, r)
  {
  }

  lemma LocalStep(c: Config, j: Name, r: JobRec, cancelled: bool, depFailed: bool, choice: Choice)
    requires j in c.deps && j in c.steps && |r.stepStatus| == c.steps[j]
    requires LocalInv(c.steps[j], j, r)
    ensures Good(c.steps[j], j, r, JobStep(c, j, r, cancelled, depFailed, choice))
  {
    hide LocalInv, Good, JobStep;
    if BeforeRun(r.pc) {
      StepBeforeRun(c, j, r, cancelled, depFailed, choice);
    } else if r.pc.CallSetup? || r.pc.SetupTeardown? || r.pc.EmitSetupFailed? {
      StepSetup(c, j, r, cancelled, depFailed, choice);
    } else if r.pc.NextStep? {
      StepHead(c, j, r, cancelled, depFailed, choice);
    } else if r.pc.EmitStepDone? {
      StepReturned(c, j, r, cancelled, depFailed, choice);
    } else if r.pc.EmitStep? || r.pc.CallStep? || r.pc.InStep? {
      StepCall(c, j, r, cancelled, depFailed, choice);
    } else if r.pc.EmitFinished? || r.pc.CallTeardown? {
      StepFinish(c, j, r, cancelled, depFailed, choice);
    } else if r.pc.StoreResult? || r.pc.MarkFailed? {
      StepStore(c, j, r, cancelled, depFailed, choice);
    } else {
      StepExit(c, j, r, cancelled, depFailed, choice);
    }
  }
}
