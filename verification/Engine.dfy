/** The concurrent engine as a transition system (internal/core/engine.go): one goroutine per job,
    with a program counter, plus the goroutine of Execute. Every select, lock section, event and
    runner call is one step, and steps of different goroutines interleave freely.

    failedJobs, jobResults and doneCh are maps keyed by job name; here the three entries of a job
    sit in that job's record. */
module Engine {
  import opened Names
  import opened Graphs
  import opened Model

  /** RunStep's return: an error, or a result with an exit code. */
  datatype StepOutcome = RunError | Exit(code: int)

  datatype StepResult = Ran(outcome: StepOutcome) | Interrupted

  /** `hasError` is `Error != nil`; only a failed Setup sets it. */
  datatype JobResult = JobResult(job: Name, status: Status, steps: seq<StepResult>, hasError: bool)

  datatype PipelineResult = PipelineResult(status: Status, jobs: seq<JobResult>, hasError: bool)

  /** What a job's goroutine lets others see: its events, its runner calls, its channel. */
  datatype Act =
    | JobSkipped
    | JobStarted
    | SetupCall
    | StepStarted(step: nat)
    | RunStepCall(step: nat)
    | StepLog(step: nat, data: Bytes)
    | StepFinished(step: nat, status: Status, exitCode: int)
    | JobFinished(status: Status)
    | TeardownCall
    | DoneClosed

  datatype Obs = PipelineStarted | PipelineFinished(status: Status) | JobAct(job: Name, act: Act)

  /** What one finished RunStep call wrote and returned (history, not read by any step). */
  datatype StepRun = StepRun(log: seq<Bytes>, outcome: StepOutcome)

  /** The next thing a job's goroutine will do. */
  datatype Pc =
    | Await(dep: nat)                                      // select on DependsOn[dep]; ctx.Err() once past the list
    | StoreCanceled
    | CheckDeps                                            // the failedJobs lookup under failedMu
    | EmitSkipped | MarkSkipped | StoreSkipped
    | EmitStarted | CallSetup
    | SetupTeardown | EmitSetupFailed
    | NextStep(i: nat)                                     // loop head: ctx.Err() before step i
    | EmitStep(i: nat) | CallStep(i: nat)
    | InStep(i: nat, log: seq<Bytes>, budget: nat)         // RunStep is active; at most `budget` writes are left
    | EmitStepDone(i: nat, log: seq<Bytes>, outcome: StepOutcome)
    | EmitFinished(ok: bool) | CallTeardown
    | StoreResult | MarkFailed
    | CloseDone | WgDone | Exited                          // the two deferred calls, last in first out

  datatype JobRec = JobRec(
    pc: Pc,
    status: Status,              // job.Status
    stepStatus: seq<Status>,     // step.Status of every step
    results: seq<StepResult>,    // stepResults
    hasError: bool,              // job.Error != nil
    failedEntry: bool,           // failedJobs[job.Name]
    result: Option<JobResult>,   // jobResults[job.Name]
    closed: bool,                // doneCh[job.Name] is closed
    done: seq<StepRun>)

  datatype MainPc = Waiting | Emitting(result: PipelineResult) | Returned(result: PipelineResult)

  datatype State = State(cancelled: bool, jobs: map<Name, JobRec>, wg: int, main: MainPc, trace: seq<Obs>)

  /** A pipeline that Schedule has accepted, and what its runner does while nothing is cancelled. */
  datatype Config = Config(
    order: seq<Name>,            // pipeline.Jobs
    deps: Graph,
    steps: map<Name, nat>,
    setupOk: Name -> bool,
    outcome: (Name, nat) -> StepOutcome)

  ghost predicate WellFormed(c: Config) {
    && Distinct(c.order)
    && (forall n :: n in c.order <==> n in c.deps)
    && c.steps.Keys == c.deps.Keys
    && Known(c.deps)
  }

  /** The nondeterminism of a step: which ready case of the select is taken, what the runner does. */
  datatype Choice =
    | Proceed
    | Abort
    | SetupReturns(ok: bool)
    | StartRun(budget: nat)
    | Write(data: Bytes)
    | RunReturns(outcome: StepOutcome)

  datatype Label =
    | JobMove(job: Name, choice: Choice)
    | Cancel
    | Decide(first: Option<Name>)  // the Failed entry that the range over jobResults meets first
    | Finish

  function Passed(o: StepOutcome): bool { o == Exit(0) }

  function ExitCodeOf(o: StepOutcome): int {
    match o case RunError => -1 case Exit(code) => code
  }

  function StatusOf(r: StepResult): Status {
    match r
    case Ran(o) => if Passed(o) then Success else Failed
    case Interrupted => Canceled
  }

  function InitRec(n: nat): JobRec {
    JobRec(Await(0), Pending, seq(n, _ => Pending), [], false, false, None, false, [])
  }

  function Init(c: Config): State
    requires c.steps.Keys == c.deps.Keys
  {
    State(false, map j | j in c.deps :: InitRec(c.steps[j]), |c.order|, Waiting, [PipelineStarted])
  }

  // -------------------------------------------------------- one job's goroutine

  /** `choice` is open to job `j` now. While nothing is cancelled the runner answers as the
      configuration says; afterwards it may return anything. */
  predicate CanMove(c: Config, s: State, j: Name, choice: Choice) {
    && j in s.jobs && j in c.deps && j in c.steps
    && match s.jobs[j].pc
       case Await(i) =>
         if i < |c.deps[j]| then
           || (choice.Proceed? && c.deps[j][i] in s.jobs && s.jobs[c.deps[j][i]].closed)
           || (choice.Abort? && s.cancelled)
         else choice.Proceed?
       case CallSetup => choice.SetupReturns? && (s.cancelled || choice.ok == c.setupOk(j))
       case CallStep(_) => choice.StartRun?
       case InStep(i, _, budget) =>
         || (choice.Write? && budget > 0)
         || (choice.RunReturns? && (s.cancelled || choice.outcome == c.outcome(j, i)))
       case Exited => false
       case _ => choice.Proceed?
  }

  datatype Move = Move(rec: JobRec, acts: seq<Act>)

  /** The step itself. `depFailed` is the result of looking the dependencies up in failedJobs. */
  function JobStep(c: Config, j: Name, r: JobRec, cancelled: bool, depFailed: bool, choice: Choice): Move
    requires j in c.deps && j in c.steps && |r.stepStatus| == c.steps[j]
  {
    match r.pc
    case Await(i) =>
      if choice.Abort? then Move(r.(pc := StoreCanceled, status := Canceled), [])
      else if i < |c.deps[j]| then Move(r.(pc := Await(i + 1)), [])
      else if cancelled then Move(r.(pc := StoreCanceled, status := Canceled), [])
      else Move(r.(pc := CheckDeps), [])
    case StoreCanceled => Move(r.(pc := CloseDone, result := Some(JobResult(j, Canceled, [], false))), [])
    case CheckDeps => Move(r.(pc := if depFailed then EmitSkipped else EmitStarted), [])
    case EmitSkipped => Move(r.(pc := MarkSkipped, status := Skipped), [JobSkipped])
    case MarkSkipped => Move(r.(pc := StoreSkipped, failedEntry := true), [])
    case StoreSkipped => Move(r.(pc := CloseDone, result := Some(JobResult(j, Skipped, [], false))), [])
    case EmitStarted => Move(r.(pc := CallSetup, status := Running), [JobStarted])
    case CallSetup =>
      if choice.SetupReturns? && choice.ok then Move(r.(pc := NextStep(0)), [SetupCall])
      else Move(r.(pc := SetupTeardown, status := Failed, hasError := true), [SetupCall])
    case SetupTeardown => Move(r.(pc := EmitSetupFailed), [TeardownCall])
    case EmitSetupFailed => Move(r.(pc := StoreResult), [JobFinished(Failed)])
    case NextStep(i) =>
      if i >= c.steps[j] then Move(r.(pc := EmitFinished(true)), [])
      else if cancelled then
        Move(r.(pc := EmitFinished(false), stepStatus := r.stepStatus[i := Canceled],
                results := r.results + [Interrupted]), [])
      else Move(r.(pc := EmitStep(i), stepStatus := r.stepStatus[i := Running]), [])
    case EmitStep(i) => Move(r.(pc := CallStep(i)), [StepStarted(i)])
    case CallStep(i) => Move(r.(pc := InStep(i, [], if choice.StartRun? then choice.budget else 0)), [RunStepCall(i)])
    case InStep(i, log, budget) =>
      if choice.Write? then Move(r.(pc := InStep(i, log + [choice.data], if budget > 0 then budget - 1 else 0)),
            [StepLog(i, choice.data)])
      else Move(r.(pc := EmitStepDone(i, log, if choice.RunReturns? then choice.outcome else RunError)), [])
    case EmitStepDone(i, log, o) =>
      var st := StatusOf(Ran(o));
      Move(r.(pc := if Passed(o) then NextStep(i + 1) else EmitFinished(false),
              stepStatus := if i < |r.stepStatus| then r.stepStatus[i := st] else r.stepStatus,
              results := r.results + [Ran(o)], done := r.done + [StepRun(log, o)]),
           [StepFinished(i, st, ExitCodeOf(o))])
    case EmitFinished(ok) =>
      var st := if ok then Success else Failed;
      Move(r.(pc := CallTeardown, status := st), [JobFinished(st)])
    case CallTeardown => Move(r.(pc := StoreResult), [TeardownCall])
    case StoreResult =>
      Move(r.(pc := if r.status == Failed || r.status == Canceled then MarkFailed else CloseDone,
              result := Some(JobResult(j, r.status, r.results, r.hasError))), [])
    case MarkFailed => Move(r.(pc := CloseDone, failedEntry := true), [])
    case CloseDone => Move(r.(pc := WgDone, closed := true), [DoneClosed])
    case WgDone => Move(r.(pc := Exited), [])
    case Exited => Move(r, [])
  }

  predicate DepFailed(c: Config, s: State, j: Name)
    requires j in c.deps
  {
    exists d :: d in c.deps[j] && d in s.jobs && s.jobs[d].failedEntry
  }

  function Tagged(j: Name, acts: seq<Act>): (t: seq<Obs>)
    ensures |t| == |acts| && forall i :: 0 <= i < |acts| ==> t[i] == JobAct(j, acts[i])
  {
    seq(|acts|, i requires 0 <= i < |acts| => JobAct(j, acts[i]))
  }

  function MoveOf(c: Config, s: State, j: Name, choice: Choice): Move
    requires j in s.jobs && j in c.deps && j in c.steps && |s.jobs[j].stepStatus| == c.steps[j]
  {
    JobStep(c, j, s.jobs[j], s.cancelled, DepFailed(c, s, j), choice)
  }

  // ------------------------------------------------------- the whole program

  /** jobResults in pipeline order, leaving out jobs without an entry. */
  function OrderedResults(order: seq<Name>, jobs: map<Name, JobRec>): seq<JobResult> {
    if order == [] then []
    else
      var last := order[|order| - 1];
      OrderedResults(order[..|order| - 1], jobs)
      + if last in jobs && jobs[last].result.Some? then [jobs[last].result.value] else []
  }

  predicate HasFailedResult(s: State, j: Name) {
    j in s.jobs && s.jobs[j].result.Some? && s.jobs[j].result.value.status == Failed
  }

  predicate Enabled(c: Config, s: State, l: Label) {
    match l
    case JobMove(j, choice) =>
      CanMove(c, s, j, choice) && |s.jobs[j].stepStatus| == c.steps[j]
    case Cancel => !s.cancelled && !s.main.Returned?
    case Decide(first) =>
      && s.main.Waiting? && s.wg == 0
      && (if first.Some? then HasFailedResult(s, first.value) else forall j :: j in s.jobs ==> !HasFailedResult(s, j))
    case Finish => s.main.Emitting?
  }

  function Verdict(c: Config, s: State, first: Option<Name>): PipelineResult {
    var jobs := OrderedResults(c.order, s.jobs);
    if s.cancelled then PipelineResult(Canceled, jobs, true)
    else if first.Some? && HasFailedResult(s, first.value) then
      PipelineResult(Failed, jobs, s.jobs[first.value].result.value.hasError)
    else PipelineResult(Success, jobs, false)
  }

  function Next(c: Config, s: State, l: Label): State
    requires Enabled(c, s, l)
  {
    match l
    case JobMove(j, choice) =>
      var m := MoveOf(c, s, j, choice);
      s.(jobs := s.jobs[j := m.rec],
         wg := if s.jobs[j].pc.WgDone? then s.wg - 1 else s.wg,
         trace := s.trace + Tagged(j, m.acts))
    case Cancel => s.(cancelled := true)
    case Decide(first) => s.(main := Emitting(Verdict(c, s, first)))
    case Finish => s.(main := Returned(s.main.result), trace := s.trace + [PipelineFinished(s.main.result.status)])
  }

  /** A run: states joined by enabled steps, from the start of the job goroutines. */
  ghost predicate IsRun(c: Config, states: seq<State>, labels: seq<Label>)
    requires c.steps.Keys == c.deps.Keys
  {
    && |states| == |labels| + 1 && states[0] == Init(c)
    && forall i :: 0 <= i < |labels| ==>
         Enabled(c, states[i], labels[i]) && states[i + 1] == Next(c, states[i], labels[i])
  }

  ghost predicate Reachable(c: Config, s: State)
    requires c.steps.Keys == c.deps.Keys
  {
    exists states, labels :: IsRun(c, states, labels) && states[|labels|] == s
  }
}
