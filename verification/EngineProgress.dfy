/** No run gets stuck and none goes on for ever; and Execute itself, from Schedule to the result. */
module EngineProgress {
  import opened Names
  import opened Graphs
  import opened Model
  import opened Engine
  import opened EngineLocal
  import opened EngineInvariant
  import opened EngineSafety
  import opened EngineCancel
  import opened EngineConfluence
  import opened Scheduler

  // --------------------------------------------------------- deadlock freedom

  lemma {:induction false} LowestLive(rank: map<Name, nat>, live: set<Name>) returns (j: Name)
    requires live != {} && live <= rank.Keys
    ensures j in live && forall k :: k in live ==> rank[j] <= rank[k]
    decreases |live|
  {
    j :| j in live;
    if live == {j} {
    } else {
      var rest := live - {j};
      assert live == rest + {j};
      var k := LowestLive(rank, rest);
      if rank[k] < rank[j] { j := k; }
    }
  }

  /** What a job does next when it does not abort and its runner answers as configured. */
  function UsualChoice(c: Config, s: State, j: Name): Choice {
    if j !in s.jobs then Proceed
    else match s.jobs[j].pc
      case CallSetup => SetupReturns(c.setupOk(j))
      case CallStep(_) => StartRun(0)
      case InStep(i, _, _) => RunReturns(c.outcome(j, i))
      case _ => Proceed
  }

  /** A live job all of whose dependencies are gone can move. */
  lemma LiveCanMove(c: Config, s: State, j: Name)
    requires Inv(c, s) && j in Live(s)
    requires forall d :: Edge(c.deps, j, d) ==> d !in Live(s)
    ensures CanMove(c, s, j, UsualChoice(c, s, j)) && j in c.steps && |s.jobs[j].stepStatus| == c.steps[j]
  {
    hide LocalInv, Script, Project, Faithful, MainInv;
    InvLocal(c, s, j);
    match s.jobs[j].pc
    case Await(i) =>
      if i < |c.deps[j]| {
        var d := c.deps[j][i];
        assert d in c.deps[j] && Edge(c.deps, j, d);
        InvLocal(c, s, d);
        ClosedHasEnded(c.steps[d], d, s.jobs[d]);
      }
    case _ =>
  }

  lemma SomeLiveMoves(c: Config, s: State) returns (j: Name)
    requires Inv(c, s) && !Cyclic(c.deps) && Live(s) != {}
    ensures j in c.order && Enabled(c, s, JobMove(j, UsualChoice(c, s, j)))
  {
    hide JobInv, CanMove, MainInv, IsRanking, UsualChoice, Cyclic, Known;
    KnownDeps(c);
    var rank := AcyclicIsRanked(c.deps);
    RankDomain(c.deps, rank);
    j := LowestLive(rank, Live(s));
    forall d | Edge(c.deps, j, d) ensures d !in Live(s) { RankEdge(c.deps, rank, j, d); }
    LiveCanMove(c, s, j);
  }

  /** Deadlock freedom: until Execute returns, every reachable state has a step to take, and one that
      does not need the context to be cancelled. */
  lemma Progress(c: Config, s: State) returns (l: Label)
    requires WellFormed(c) && !Cyclic(c.deps) && Reachable(c, s) && !s.main.Returned?
    ensures Enabled(c, s, l) && !l.Cancel?
  {
    hide JobInv, CanMove, MainInv, Cyclic, UsualChoice, Reachable, WellFormed;
    InvReachable(c, s);
    if s.main.Emitting? { return Finish; }
    if Live(s) == {} {
      if exists j :: HasFailedResult(s, j) {
        var j :| HasFailedResult(s, j);
        return Decide(Some(j));
      }
      return Decide(None);
    }
    var j := SomeLiveMoves(c, s);
    return JobMove(j, UsualChoice(c, s, j));
  }

  /** The step taken when the proposed one is not possible. */
  method FallbackStep(c: Config, s: State) returns (l: Label)
    requires Inv(c, s) && !Cyclic(c.deps) && !s.main.Returned?
    ensures Enabled(c, s, l) && !l.Cancel?
  {
    hide JobInv, CanMove, MainInv, Cyclic, UsualChoice, WellFormed, MoveOf;
    if s.main.Emitting? { return Finish; }
    for i := 0 to |c.order|
      invariant forall k :: 0 <= k < i ==> !Enabled(c, s, JobMove(c.order[k], UsualChoice(c, s, c.order[k])))
    {
      l := JobMove(c.order[i], UsualChoice(c, s, c.order[i]));
      if Enabled(c, s, l) { return; }
    }
    if Live(s) != {} {
      var j := SomeLiveMoves(c, s);
    }
    if j :| j in s.jobs && HasFailedResult(s, j) { return Decide(Some(j)); }
    return Decide(None);
  }

  // -------------------------------------------------------------- termination

  /** How many program points a goroutine still has before it, at most. */
  ghost function Weight(deps: nat, n: nat, r: JobRec): nat {
    match r.pc
    case Exited => 0
    case WgDone => 1
    case CloseDone => 2
    case MarkFailed => 3
    case StoreResult => 4
    case CallTeardown => 5
    case EmitFinished(_) => 6
    case NextStep(i) => 7 + 5 * Left(n, i)
    case EmitStep(i) => 6 + 5 * Left(n, i)
    case CallStep(i) => 5 + 5 * Left(n, i)
    case InStep(i, _, _) => 4 + 5 * Left(n, i)
    case EmitStepDone(i, _, _) => 3 + 5 * Left(n, i)
    case EmitSetupFailed => 5
    case SetupTeardown => 6
    case CallSetup => 8 + 5 * n
    case EmitStarted => 9 + 5 * n
    case StoreSkipped => 3
    case MarkSkipped => 4
    case EmitSkipped => 5
    case StoreCanceled => 3
    case CheckDeps => 10 + 5 * n
    case Await(i) => 11 + 5 * n + Left(deps, i)
  }

  ghost function Left(n: nat, i: nat): nat {
    if i < n then n - i else 0
  }

  /** The writes that an active RunStep may still make. */
  ghost function Chatter(r: JobRec): nat {
    if r.pc.InStep? then r.pc.budget else 0
  }

  ghost predicate Lighter(deps: nat, n: nat, r: JobRec, q: JobRec) {
    Weight(deps, n, q) < Weight(deps, n, r) || (Weight(deps, n, q) == Weight(deps, n, r) && Chatter(q) < Chatter(r))
  }

  lemma LoopLightens(c: Config, j: Name, r: JobRec, cancelled: bool, depFailed: bool, choice: Choice)
    requires j in c.deps && j in c.steps && |r.stepStatus| == c.steps[j] && LocalInv(c.steps[j], j, r) && InLoop(r.pc)
    requires r.pc.InStep? ==> (choice.Write? && r.pc.budget > 0) || choice.RunReturns?
    ensures Lighter(|c.deps[j]|, c.steps[j], r, JobStep(c, j, r, cancelled, depFailed, choice).rec)
  {
    hide StatusLine, ResultsOf, Green;
  }

  lemma AwaitLightens(c: Config, j: Name, r: JobRec, cancelled: bool, depFailed: bool, choice: Choice)
    requires j in c.deps && j in c.steps && |r.stepStatus| == c.steps[j]
    requires r.pc.Await? || r.pc.StoreCanceled?
    ensures Lighter(|c.deps[j]|, c.steps[j], r, JobStep(c, j, r, cancelled, depFailed, choice).rec)
  {
  }

  lemma StartLightens(c: Config, j: Name, r: JobRec, cancelled: bool, depFailed: bool, choice: Choice)
    requires j in c.deps && j in c.steps && |r.stepStatus| == c.steps[j]
    requires (BeforeRun(r.pc) || r.pc.CallSetup?) && !r.pc.Await? && !r.pc.StoreCanceled?
    ensures Lighter(|c.deps[j]|, c.steps[j], r, JobStep(c, j, r, cancelled, depFailed, choice).rec)
  {
  }

  lemma EndLightens(c: Config, j: Name, r: JobRec, cancelled: bool, depFailed: bool, choice: Choice)
    requires j in c.deps && j in c.steps && |r.stepStatus| == c.steps[j] && !r.pc.Exited?
    requires !BeforeRun(r.pc) && !r.pc.CallSetup? && !InLoop(r.pc)
    ensures Lighter(|c.deps[j]|, c.steps[j], r, JobStep(c, j, r, cancelled, depFailed, choice).rec)
  {
  }

  lemma MoveLightens(c: Config, s: State, j: Name, choice: Choice)
    requires Inv(c, s) && j in s.jobs && CanMove(c, s, j, choice) && |s.jobs[j].stepStatus| == c.steps[j]
    ensures Lighter(|c.deps[j]|, c.steps[j], s.jobs[j], MoveOf(c, s, j, choice).rec)
  {
    hide Inv, LocalInv, JobInv, JobStep, Lighter;
    InvLocal(c, s, j);
    var r := s.jobs[j];
    if r.pc.Await? || r.pc.StoreCanceled? { AwaitLightens(c, j, r, s.cancelled, DepFailed(c, s, j), choice); }
    else if BeforeRun(r.pc) || r.pc.CallSetup? { StartLightens(c, j, r, s.cancelled, DepFailed(c, s, j), choice); }
    else if InLoop(r.pc) { LoopLightens(c, j, r, s.cancelled, DepFailed(c, s, j), choice); }
    else { EndLightens(c, j, r, s.cancelled, DepFailed(c, s, j), choice); }
  }

  ghost function WeightOf(c: Config, jobs: map<Name, JobRec>, j: Name): nat {
    if j in jobs && j in c.deps && j in c.steps then Weight(|c.deps[j]|, c.steps[j], jobs[j]) else 0
  }

  ghost function ChatterOf(jobs: map<Name, JobRec>, j: Name): nat {
    if j in jobs then Chatter(jobs[j]) else 0
  }

  ghost function TotalWeight(c: Config, order: seq<Name>, jobs: map<Name, JobRec>): nat {
    if order == [] then 0
    else TotalWeight(c, order[..|order| - 1], jobs) + WeightOf(c, jobs, order[|order| - 1])
  }

  ghost function TotalChatter(order: seq<Name>, jobs: map<Name, JobRec>): nat {
    if order == [] then 0
    else TotalChatter(order[..|order| - 1], jobs) + ChatterOf(jobs, order[|order| - 1])
  }

  /** Changing one job changes the totals by that job's difference. */
  lemma {:induction false} TotalsAfter(c: Config, order: seq<Name>, a: map<Name, JobRec>, b: map<Name, JobRec>, j: Name)
    requires Distinct(order) && forall k :: k != j ==> (k in a <==> k in b) && (k in a ==> a[k] == b[k])
    ensures TotalWeight(c, order, b)
         == TotalWeight(c, order, a) + if j in order then WeightOf(c, b, j) - WeightOf(c, a, j) else 0
    ensures TotalChatter(order, b)
         == TotalChatter(order, a) + if j in order then ChatterOf(b, j) - ChatterOf(a, j) else 0
  {
    hide Weight, Chatter;
    if order == [] {
    } else {
      var k := |order| - 1;
      assert order == order[..k] + [order[k]];
      TotalsAfter(c, order[..k], a, b, j);
      assert order[k] !in order[..k];
    }
  }

  /** The program points still to be passed, by all goroutines, by Execute and by the context. */
  ghost function Work(c: Config, s: State): nat {
    TotalWeight(c, c.order, s.jobs)
    + (match s.main case Waiting => 2 case Emitting(_) => 1 case Returned(_) => 0)
    + if s.cancelled then 0 else 1
  }

  ghost function Noise(c: Config, s: State): nat {
    TotalChatter(c.order, s.jobs)
  }

  /** Termination: every step of the program makes the pair of work and noise smaller, in the
      lexicographic order, so no run is infinite and wg.Wait returns. */
  lemma EveryStepDescends(c: Config, s: State, l: Label)
    requires Inv(c, s) && Enabled(c, s, l)
    ensures var t := Next(c, s, l); Work(c, t) < Work(c, s) || (Work(c, t) == Work(c, s) && Noise(c, t) < Noise(c, s))
  {
    hide JobInv, CanMove, MainInv, JobStep, Weight, Chatter, TotalWeight, TotalChatter, Verdict;
    var t := Next(c, s, l);
    match l
    case JobMove(j, choice) =>
      LabelMoves(c, s, l);
      MoveLightens(c, s, j, choice);
      TotalsAfter(c, c.order, s.jobs, t.jobs, j);
    case Cancel =>
    case Decide(_) =>
    case Finish =>
  }

  // ------------------------------------------------------------------ Execute

  function StepCounts(jobs: seq<Job>): (m: map<Name, nat>)
    ensures m.Keys == GraphOf(jobs).Keys
  {
    if jobs == [] then map[]
    else
      var last := jobs[|jobs| - 1];
      StepCounts(jobs[..|jobs| - 1])[last.name := |last.steps|]
  }

  function ConfigOf(jobs: seq<Job>, setupOk: Name -> bool, outcome: (Name, nat) -> StepOutcome): Config {
    Config(NamesOf(jobs), GraphOf(jobs), StepCounts(jobs), setupOk, outcome)
  }

  lemma {:induction false} StepsCounted(jobs: seq<Job>, i: nat)
    requires UniqueNames(jobs) && i < |jobs|
    ensures jobs[i].name in StepCounts(jobs) && StepCounts(jobs)[jobs[i].name] == |jobs[i].steps|
  {
    var k := |jobs| - 1;
    if i == k {
    } else {
      StepsCounted(jobs[..k], i);
    }
  }

  /** What the engine is given: the jobs in order, their dependencies, the number of their steps, and
      the runner's answers. */
  lemma ConfigOfJobs(jobs: seq<Job>, setupOk: Name -> bool, outcome: (Name, nat) -> StepOutcome)
    requires UniqueNames(jobs)
    ensures var c := ConfigOf(jobs, setupOk, outcome);
      && |c.order| == |jobs| && c.setupOk == setupOk && c.outcome == outcome
      && forall i :: 0 <= i < |jobs| ==> var n := jobs[i].name;
           && c.order[i] == n && n in c.deps && c.deps[n] == jobs[i].dependsOn
           && n in c.steps && c.steps[n] == |jobs[i].steps|
  {
    hide GraphOf, StepCounts, UniqueNames;
    GraphOfUnique(jobs);
    forall i | 0 <= i < |jobs|
      ensures jobs[i].name in StepCounts(jobs) && StepCounts(jobs)[jobs[i].name] == |jobs[i].steps| {
      StepsCounted(jobs, i);
    }
  }

  lemma ConfigIsWellFormed(jobs: seq<Job>, setupOk: Name -> bool, outcome: (Name, nat) -> StepOutcome)
    requires UniqueNames(jobs) && Known(GraphOf(jobs))
    ensures WellFormed(ConfigOf(jobs, setupOk, outcome))
  {
    hide GraphOf, StepCounts;
    GraphKeys(jobs);
  }

  // ------------------------------------------- the result, in terms of the jobs

  /** Some dependency of job `i` did not succeed. */
  ghost predicate DependencyMissed(jobs: seq<Job>, results: seq<JobResult>, i: nat)
    requires i < |jobs| && |results| == |jobs|
  {
    exists k :: 0 <= k < |jobs| && jobs[k].name in jobs[i].dependsOn && results[k].status != Success
  }

  ghost predicate AllPass(job: Job, outcome: (Name, nat) -> StepOutcome) {
    forall k :: 0 <= k < |job.steps| ==> outcome(job.name, k) == Exit(0)
  }

  /** The steps ran one after another, with the runner's answers, up to the first that did not exit with 0. */
  ghost predicate StepsAsAnswered(job: Job, outcome: (Name, nat) -> StepOutcome, r: JobResult) {
    && |r.steps| <= |job.steps|
    && (forall k :: 0 <= k < |r.steps| ==> r.steps[k] == Ran(outcome(job.name, k)))
    && (forall k :: 0 <= k < |r.steps| - 1 ==> outcome(job.name, k) == Exit(0))
    && if AllPass(job, outcome) then r.status == Success && |r.steps| == |job.steps|
       else r.status == Failed && r.steps != [] && outcome(job.name, |r.steps| - 1) != Exit(0)
  }

  /** Job `i` is skipped if and only if some dependency did not succeed; otherwise it fails in Setup, or
      ends as its steps do. */
  ghost predicate JobAsAnswered(jobs: seq<Job>, setupOk: Name -> bool, outcome: (Name, nat) -> StepOutcome,
                                results: seq<JobResult>, i: nat)
    requires i < |jobs| && |results| == |jobs|
  {
    var job, r := jobs[i], results[i];
    && r.job == job.name
    && (r.status == Skipped <==> DependencyMissed(jobs, results, i))
    && if r.status == Skipped then r.steps == [] && !r.hasError
       else if !setupOk(job.name) then r.status == Failed && r.steps == [] && r.hasError
       else !r.hasError && StepsAsAnswered(job, outcome, r)
  }

  /** What holds of a job's result in every run, cancelled or not. */
  ghost predicate SuccessIsComplete(job: Job, r: JobResult) {
    && r.job == job.name && |r.steps| <= |job.steps|
    && (r.status == Success ==>
         |r.steps| == |job.steps| && forall k :: 0 <= k < |r.steps| ==> r.steps[k] == Ran(Exit(0)))
  }

  /** What Execute returns, in terms of its arguments alone. */
  ghost predicate ReturnsAsAnswered(jobs: seq<Job>, setupOk: Name -> bool, outcome: (Name, nat) -> StepOutcome,
                                    res: PipelineResult)
  {
    && |res.jobs| == |jobs|
    && (forall i :: 0 <= i < |jobs| ==> SuccessIsComplete(jobs[i], res.jobs[i]))
    && (res.status != Canceled ==>
         VerdictFits(res) && forall i :: 0 <= i < |jobs| ==> JobAsAnswered(jobs, setupOk, outcome, res.jobs, i))
  }

  /** Results of steps `i..`: the runner's answers, all of them passes but perhaps the last, and none
      missing after a pass. */
  ghost predicate AnswersFrom(c: Config, j: Name, i: nat, r: seq<StepResult>)
    requires j in c.steps && i <= c.steps[j]
  {
    && |r| <= c.steps[j] - i
    && (forall k :: 0 <= k < |r| ==> r[k] == Ran(c.outcome(j, i + k)))
    && (forall k :: 0 <= k < |r| - 1 ==> r[k] == Ran(Exit(0)))
    && (|r| == c.steps[j] - i || (r != [] && r[|r| - 1] != Ran(Exit(0))))
  }

  lemma {:induction false} RunStepsAnswer(c: Config, j: Name, i: nat)
    requires j in c.steps && i <= c.steps[j]
    ensures AnswersFrom(c, j, i, RunSteps(c, j, i))
    decreases c.steps[j] - i
  {
    if i == c.steps[j] {
    } else {
      RunStepsAnswer(c, j, i + 1);
      var o, rest, r := c.outcome(j, i), RunSteps(c, j, i + 1), RunSteps(c, j, i);
      if o == Exit(0) {
        assert r == [Ran(o)] + rest;
        forall k | 0 < k < |r| ensures r[k] == rest[k - 1] && r[k] == Ran(c.outcome(j, i + k)) {
          assert i + k == i + 1 + (k - 1);
        }
      } else {
        assert r == [Ran(o)] + [];
      }
    }
  }

  /** All results but the last are passes. */
  ghost predicate PassesButLast(steps: seq<StepResult>) {
    forall k :: 0 <= k < |steps| - 1 ==> steps[k] == Ran(Exit(0))
  }

  ghost predicate Answered(job: Job, outcome: (Name, nat) -> StepOutcome, steps: seq<StepResult>) {
    forall k :: 0 <= k < |steps| ==> steps[k] == Ran(outcome(job.name, k))
  }

  lemma FromTheFirst(c: Config, job: Job, steps: seq<StepResult>)
    requires job.name in c.steps && c.steps[job.name] == |job.steps| && AnswersFrom(c, job.name, 0, steps)
    ensures |steps| <= |job.steps| && Answered(job, c.outcome, steps) && PassesButLast(steps)
    ensures |steps| == |job.steps| || (steps != [] && steps[|steps| - 1] != Ran(Exit(0)))
  {
    forall k | 0 <= k < |steps| ensures steps[k] == Ran(c.outcome(job.name, k)) {
      assert steps[k] == Ran(c.outcome(job.name, 0 + k));
    }
  }

  lemma AllOrLast(steps: seq<StepResult>)
    requires PassesButLast(steps)
    ensures (forall s :: s in steps ==> s == Ran(Exit(0))) <==> steps == [] || steps[|steps| - 1] == Ran(Exit(0))
  {
    if steps != [] {
      var last := |steps| - 1;
      assert steps[last] in steps;
      forall s | s in steps ensures s == Ran(Exit(0)) || s == steps[last] {
        var k :| 0 <= k < |steps| && steps[k] == s;
      }
    }
  }

  lemma AnswersFit(c: Config, job: Job, r: JobResult)
    requires job.name in c.steps && c.steps[job.name] == |job.steps| && AnswersFrom(c, job.name, 0, r.steps)
    requires r.status == if forall s :: s in r.steps ==> s == Ran(Exit(0)) then Success else Failed
    ensures StepsAsAnswered(job, c.outcome, r)
  {
    hide AnswersFrom, AllPass;
    var n, steps := job.name, r.steps;
    FromTheFirst(c, job, steps);
    AllOrLast(steps);
    assert forall k :: 0 <= k < |steps| - 1 ==> steps[k] == Ran(c.outcome(n, k)) && c.outcome(n, k) == Exit(0);
    PassesExactly(job, c.outcome, steps);
  }

  lemma PassesExactly(job: Job, outcome: (Name, nat) -> StepOutcome, steps: seq<StepResult>)
    requires |steps| <= |job.steps| && Answered(job, outcome, steps) && PassesButLast(steps)
    requires |steps| == |job.steps| || (steps != [] && steps[|steps| - 1] != Ran(Exit(0)))
    ensures AllPass(job, outcome) <==> steps == [] || steps[|steps| - 1] == Ran(Exit(0))
    ensures AllPass(job, outcome) ==> |steps| == |job.steps|
  {
    if steps != [] { assert steps[|steps| - 1] == Ran(outcome(job.name, |steps| - 1)); }
    if steps == [] || steps[|steps| - 1] == Ran(Exit(0)) {
      forall k | 0 <= k < |job.steps| ensures outcome(job.name, k) == Exit(0) {
        assert steps[k] == Ran(outcome(job.name, k)) && steps[k] == Ran(Exit(0));
      }
    }
  }

  lemma AloneAsAnswered(c: Config, job: Job)
    requires job.name in c.steps && c.steps[job.name] == |job.steps|
    ensures var r := RunAlone(c, job.name);
      && r.job == job.name && r.status != Skipped
      && if !c.setupOk(job.name) then r.status == Failed && r.steps == [] && r.hasError
         else !r.hasError && StepsAsAnswered(job, c.outcome, r)
  {
    hide RunSteps, AnswersFrom, StepsAsAnswered;
    RunStepsAnswer(c, job.name, 0);
    if c.setupOk(job.name) { AnswersFit(c, job, RunAlone(c, job.name)); }
  }

  /** Being blocked means that some job in the list, named as a dependency, did not succeed. */
  lemma BlockedAsMissed(c: Config, jobs: seq<Job>, results: map<Name, JobResult>, listed: seq<JobResult>, i: nat)
    requires i < |jobs| && |listed| == |jobs| == |c.order| && InOrder(c.order, results, listed)
    requires forall k :: 0 <= k < |jobs| ==> c.order[k] == jobs[k].name
    requires jobs[i].name in c.deps && c.deps[jobs[i].name] == jobs[i].dependsOn
    requires forall n :: n in results ==> n in c.order
    ensures Blocked(c, results, jobs[i].name) <==> DependencyMissed(jobs, listed, i)
  {
    if Blocked(c, results, jobs[i].name) {
      var d :| d in c.deps[jobs[i].name] && d in results && results[d].status != Success;
      var k :| 0 <= k < |c.order| && c.order[k] == d;
      assert jobs[k].name in jobs[i].dependsOn && listed[k].status != Success;
    }
  }

  lemma SpecifiedAsAnswered(jobs: seq<Job>, setupOk: Name -> bool, outcome: (Name, nat) -> StepOutcome,
                            res: PipelineResult)
    requires UniqueNames(jobs) && WellFormed(ConfigOf(jobs, setupOk, outcome))
    requires var c := ConfigOf(jobs, setupOk, outcome); c.steps.Keys == c.deps.Keys && Specified(c, res)
    ensures |res.jobs| == |jobs| && forall i :: 0 <= i < |jobs| ==> JobAsAnswered(jobs, setupOk, outcome, res.jobs, i)
  {
    hide UniqueNames, ConfigOf, RunAlone, StepsAsAnswered, DependencyMissed, Blocked, VerdictFits;
    var c := ConfigOf(jobs, setupOk, outcome);
    ConfigOfJobs(jobs, setupOk, outcome);
    var results :| MeetsSpec(c, results) && InOrder(c.order, results, res.jobs);
    SpecDomain(c, results);
    forall i | 0 <= i < |jobs| ensures JobAsAnswered(jobs, setupOk, outcome, res.jobs, i) {
      BlockedAsMissed(c, jobs, results, res.jobs, i);
      AloneAsAnswered(c, jobs[i]);
    }
  }

  lemma ConservedIsComplete(n: nat, job: Job, r: JobRec, res: JobResult)
    requires JobConserved(n, r) && n == |job.steps| && res == JobResult(job.name, r.status, r.results, r.hasError)
    ensures SuccessIsComplete(job, res)
  {
  }

  /** In terms of the jobs and the runner's answers, whatever the run was. */
  lemma ReachedAsAnswered(jobs: seq<Job>, setupOk: Name -> bool, outcome: (Name, nat) -> StepOutcome, s: State)
    requires UniqueNames(jobs) && WellFormed(ConfigOf(jobs, setupOk, outcome))
    requires var c := ConfigOf(jobs, setupOk, outcome);
      !Cyclic(c.deps) && c.steps.Keys == c.deps.Keys && Reachable(c, s) && s.main.Returned?
    ensures ReturnsAsAnswered(jobs, setupOk, outcome, s.main.result)
  {
    hide UniqueNames, WellFormed, ConfigOf, Cyclic, Reachable, Specified, JobConserved,
         SuccessIsComplete, JobAsAnswered;
    var c := ConfigOf(jobs, setupOk, outcome);
    ConfigOfJobs(jobs, setupOk, outcome);
    ResultsConserved(c, s);
    forall i | 0 <= i < |jobs| ensures SuccessIsComplete(jobs[i], s.main.result.jobs[i]) {
      assert c.order[i] == jobs[i].name;
      ConservedIsComplete(c.steps[jobs[i].name], jobs[i], s.jobs[jobs[i].name], s.main.result.jobs[i]);
    }
    if s.main.result.status != Canceled {
      RunIsSpecified(c, s);
      SpecifiedAsAnswered(jobs, setupOk, outcome, s.main.result);
      FitsOf(c, s.main.result);
    }
  }

  lemma FitsOf(c: Config, res: PipelineResult)
    requires c.steps.Keys == c.deps.Keys && Specified(c, res)
    ensures VerdictFits(res)
  {
    hide VerdictFits;
  }

  // ------------------------------------------------------------------ the method

  /** The run takes the proposed step wherever it is possible, and otherwise one that is not a cancellation. */
  ghost predicate Follows(c: Config, pick: State -> Label, states: seq<State>, labels: seq<Label>)
    requires |states| == |labels| + 1
  {
    forall k :: 0 <= k < |labels| ==>
      if Enabled(c, states[k], pick(states[k])) then labels[k] == pick(states[k]) else !labels[k].Cancel?
  }

  /** A complete run that follows `pick` and ends with this result and trace. */
  ghost predicate RanBy(c: Config, pick: State -> Label, states: seq<State>, labels: seq<Label>,
                        result: PipelineResult, trace: seq<Obs>)
    requires c.steps.Keys == c.deps.Keys
  {
    && IsRun(c, states, labels) && Follows(c, pick, states, labels)
    && states[|labels|].main == Returned(result) && states[|labels|].trace == trace
    && (result.status == Canceled <==> CancelledInTime(states, labels))
  }

  lemma IsRanBy(c: Config, pick: State -> Label, states: seq<State>, labels: seq<Label>)
    requires c.steps.Keys == c.deps.Keys && IsRun(c, states, labels) && Follows(c, pick, states, labels)
    requires states[|labels|].main.Returned?
    ensures RanBy(c, pick, states, labels, states[|labels|].main.result, states[|labels|].trace)
  {
    hide IsRun, Follows, CancelledInTime;
    CanceledExactly(c, states, labels);
  }

  lemma FollowsOn(c: Config, pick: State -> Label, states: seq<State>, labels: seq<Label>, l: Label, t: State)
    requires |states| == |labels| + 1 && Follows(c, pick, states, labels)
    requires if Enabled(c, states[|labels|], pick(states[|labels|])) then l == pick(states[|labels|]) else !l.Cancel?
    ensures Follows(c, pick, states + [t], labels + [l])
  {
    hide Enabled;
    var ss, ls := states + [t], labels + [l];
    forall k | 0 <= k < |ls| ensures if Enabled(c, ss[k], pick(ss[k])) then ls[k] == pick(ss[k]) else !ls[k].Cancel? {
      assert ss[k] == states[k];
      if k < |labels| { assert ls[k] == labels[k]; }
    }
  }

  /** Execute: PipelineStarted, then Schedule, then the goroutines, interleaved and cancelled as `pick`
      proposes, until the result is returned. It terminates for every `pick`. An unschedulable pipeline
      runs nothing and fails with the schedule error. Otherwise the result is what the runner's answers
      make of the jobs, unless the run was cancelled before the final check, and then it is Canceled.
      Two jobs of one name would close the same channel twice, which panics. */
  method Execute(jobs: seq<Job>, setupOk: Name -> bool, outcome: (Name, nat) -> StepOutcome, pick: State -> Label)
    returns (result: PipelineResult, err: Option<ScheduleError>, trace: seq<Obs>)
    requires UniqueNames(jobs)
    ensures err.None? <==> Known(GraphOf(jobs)) && !Cyclic(GraphOf(jobs))
    ensures err.Some? ==>
      result == PipelineResult(Failed, [], true) && trace == [PipelineStarted, PipelineFinished(Failed)]
    ensures err.Some? && !Known(GraphOf(jobs)) ==> FirstUnknown(jobs, err.value)
    ensures err.Some? && Known(GraphOf(jobs)) ==>
      err.value.DependencyCycle? && ReportsCycle(GraphOf(jobs), err.value.path)
    ensures err.None? ==> ReturnsAsAnswered(jobs, setupOk, outcome, result)
    ensures err.None? ==> var c := ConfigOf(jobs, setupOk, outcome);
      WellFormed(c) && exists states, labels :: RanBy(c, pick, states, labels, result, trace)
  {
    hide GraphOf, StepCounts, Inv, Enabled, Next, Work, Noise, IsLevels, Reachable, WellFormed, Cyclic, Known, AllKnown,
         FirstUnknown, ReportsCycle, UniqueNames, ReportedBy, HoldsJobs, Distinct, LevelsInOrder,
         ReturnsAsAnswered, Follows, RanBy;
    trace := [PipelineStarted];
    KnownIfUnique(jobs);
    var scheduled := Schedule(jobs);
    if scheduled.Err? {
      trace := trace + [PipelineFinished(Failed)];
      return PipelineResult(Failed, [], true), Some(scheduled.error), trace;
    }
    LevelsOf(jobs, scheduled.value);
    LevelsRank(GraphOf(jobs), GroupNames(scheduled.value));

    var c := ConfigOf(jobs, setupOk, outcome);
    ConfigIsWellFormed(jobs, setupOk, outcome);
    SameKeys(c);
    var s := Init(c);
    InvInit(c);
    ghost var states, labels := [s], [];
    NothingFollowed(c, pick, s);
    while !s.main.Returned?
      invariant Inv(c, s)
      invariant IsRun(c, states, labels) && Follows(c, pick, states, labels) && states[|labels|] == s
      decreases Work(c, s), Noise(c, s)
    {
      var l := pick(s);
      if !Enabled(c, s, l) { l := FallbackStep(c, s); }
      InvNext(c, s, l);
      EveryStepDescends(c, s, l);
      RunExtends(c, states, labels, l);
      FollowsOn(c, pick, states, labels, l, Next(c, s, l));
      s := Next(c, s, l);
      states, labels := states + [s], labels + [l];
    }
    IsReached(c, states, labels, s);
    ReachedAsAnswered(jobs, setupOk, outcome, s);
    IsRanBy(c, pick, states, labels);
    return s.main.result, None, s.trace;
  }

  lemma NothingFollowed(c: Config, pick: State -> Label, s: State)
    ensures Follows(c, pick, [s], [])
  {
  }

  lemma LevelsOf(jobs: seq<Job>, groups: seq<ExecutionGroup>)
    requires LevelsInOrder(jobs, groups)
    ensures IsLevels(GraphOf(jobs), GroupNames(groups))
  {
  }

  lemma KnownIfUnique(jobs: seq<Job>)
    requires UniqueNames(jobs)
    ensures AllKnown(jobs) <==> Known(GraphOf(jobs))
  {
    hide GraphOf, UniqueNames, AllKnown, Known;
    UniqueDeps(jobs);
  }

  lemma RunExtends(c: Config, states: seq<State>, labels: seq<Label>, l: Label)
    requires c.steps.Keys == c.deps.Keys && IsRun(c, states, labels) && Enabled(c, states[|labels|], l)
    ensures IsRun(c, states + [Next(c, states[|labels|], l)], labels + [l])
  {
    hide Enabled, Next, Init;
    var ss, ls := states + [Next(c, states[|labels|], l)], labels + [l];
    forall i | 0 <= i < |ls| ensures Enabled(c, ss[i], ls[i]) && ss[i + 1] == Next(c, ss[i], ls[i]) {
      if i < |labels| { assert ss[i] == states[i] && ls[i] == labels[i] && ss[i + 1] == states[i + 1]; }
    }
  }

  lemma IsReached(c: Config, states: seq<State>, labels: seq<Label>, s: State)
    requires c.steps.Keys == c.deps.Keys && IsRun(c, states, labels) && states[|labels|] == s
    ensures Reachable(c, s)
  {
    hide Enabled, Next, Init;
  }
}
