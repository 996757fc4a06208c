/** The one part of the result that may depend on the schedule: the error of a Failed pipeline. It is the
    error of whichever failed job the range over jobResults meets first, so runs agree on it exactly when
    all failed jobs agree. */
module EngineVerdict {
  import opened Names
  import opened Graphs
  import opened Model
  import opened Engine
  import opened EngineLocal
  import opened EngineInvariant
  import opened EngineSafety
  import opened EngineConfluence
  import opened EngineProgress

  // ---------------------------------------------------- every run can be completed

  lemma ReachNext(c: Config, s: State, l: Label)
    requires c.steps.Keys == c.deps.Keys && Reachable(c, s) && Enabled(c, s, l)
    ensures Reachable(c, Next(c, s, l))
  {
    hide Enabled, Next, Init;
    var states, labels :| IsRun(c, states, labels) && states[|labels|] == s;
    RunExtends(c, states, labels, l);
    IsReached(c, states + [Next(c, s, l)], labels + [l], Next(c, s, l));
  }

  lemma OnlyCancelCancels(c: Config, s: State, l: Label)
    requires Enabled(c, s, l) && !l.Cancel?
    ensures Next(c, s, l).cancelled == s.cancelled
  {
    hide CanMove, MoveOf, Verdict;
  }

  /** From every reachable state a run can be completed without cancelling it. */
  lemma {:induction false} Completes(c: Config, s: State) returns (t: State)
    requires WellFormed(c) && !Cyclic(c.deps) && Reachable(c, s)
    ensures Reachable(c, t) && t.main.Returned? && t.cancelled == s.cancelled
    decreases Work(c, s), Noise(c, s)
  {
    hide WellFormed, Cyclic, Reachable, Enabled, Next, Work, Noise, Inv;
    SameKeys(c);
    if s.main.Returned? {
      t := s;
    } else {
      var l := Progress(c, s);
      InvReachable(c, s);
      EveryStepDescends(c, s, l);
      ReachNext(c, s, l);
      OnlyCancelCancels(c, s, l);
      t := Completes(c, Next(c, s, l));
    }
  }

  // ------------------------------------------------ the state that was judged

  /** `p` is where the final check found what `s` returned, or is about to return. */
  ghost predicate JudgedAt(c: Config, p: State, s: State) {
    && p.main.Waiting? && !s.main.Waiting? && p.jobs == s.jobs
    && exists first :: Enabled(c, p, Decide(first)) && s.main.result == Verdict(c, p, first)
  }

  lemma JudgedStays(c: Config, p: State, s: State, l: Label)
    requires JudgedAt(c, p, s) && Inv(c, s) && Enabled(c, s, l)
    ensures JudgedAt(c, p, Next(c, s, l))
  {
    hide Verdict, JobInv, WellFormed, VerdictOk, CanMove, HasFailedResult;
    var first :| Enabled(c, p, Decide(first)) && s.main.result == Verdict(c, p, first);
    match l
    case JobMove(j, choice) => GoneCannotMove(c, s, j, choice);
    case _ =>
  }

  lemma GoneCannotMove(c: Config, s: State, j: Name, choice: Choice)
    requires Inv(c, s) && !s.main.Waiting?
    ensures !CanMove(c, s, j, choice)
  {
    hide JobInv, WellFormed, VerdictOk;
    assert forall k :: k in s.jobs && !s.jobs[k].pc.Exited? ==> k in Live(s);
  }

  lemma {:induction false} Judged(c: Config, states: seq<State>, labels: seq<Label>) returns (p: State)
    requires WellFormed(c) && IsRun(c, states, labels) && !states[|labels|].main.Waiting?
    ensures Reachable(c, p) && JudgedAt(c, p, states[|labels|])
  {
    hide WellFormed, Inv, Enabled, Next, JudgedAt;
    SameKeys(c);
    var k := |labels| - 1;
    if labels == [] {
      assert false by { StartWaits(c); }
    } else {
      var ss, ls := states[..k + 1], labels[..k];
      assert IsRun(c, ss, ls) && ss[k] == states[k];
      InvRun(c, ss, ls);
      if states[k].main.Waiting? {
        p := states[k];
        IsReached(c, ss, ls, p);
        JudgedNow(c, p, labels[k]);
      } else {
        p := Judged(c, ss, ls);
        JudgedStays(c, p, states[k], labels[k]);
      }
    }
  }

  lemma StartWaits(c: Config)
    requires c.steps.Keys == c.deps.Keys
    ensures Init(c).main.Waiting?
  {
  }

  lemma JudgedNow(c: Config, p: State, l: Label)
    requires p.main.Waiting? && Enabled(c, p, l) && !Next(c, p, l).main.Waiting?
    ensures JudgedAt(c, p, Next(c, p, l))
  {
    hide CanMove, MoveOf, Verdict, HasFailedResult;
  }

  lemma JudgedOf(c: Config, s: State) returns (p: State)
    requires WellFormed(c) && c.steps.Keys == c.deps.Keys && Reachable(c, s) && !s.main.Waiting?
    ensures Reachable(c, p) && JudgedAt(c, p, s)
  {
    hide WellFormed, Enabled, Next, Init, JudgedAt;
    var states, labels :| IsRun(c, states, labels) && states[|labels|] == s;
    p := Judged(c, states, labels);
  }

  /** The final check may pick any failed entry, when it is not cancelled. */
  lemma PickAt(c: Config, p: State, s: State, j: Name) returns (t: State)
    requires c.steps.Keys == c.deps.Keys && Reachable(c, p) && JudgedAt(c, p, s)
    requires s.main.result.status == Failed && HasFailedResult(s, j)
    ensures Reachable(c, t) && t.main.Returned? && t.jobs == s.jobs
    ensures t.main.result == PipelineResult(Failed, s.main.result.jobs, s.jobs[j].result.value.hasError)
  {
    hide Reachable, CanMove, MoveOf, OrderedResults;
    var first :| Enabled(c, p, Decide(first)) && s.main.result == Verdict(c, p, first);
    assert HasFailedResult(p, j);
    var decided := Next(c, p, Decide(Some(j)));
    ReachNext(c, p, Decide(Some(j)));
    ReachNext(c, decided, Finish);
    t := Next(c, decided, Finish);
  }

  /** A complete run that was not cancelled before its final check. */
  ghost predicate Complete(c: Config, s: State)
    requires c.steps.Keys == c.deps.Keys
  {
    Reachable(c, s) && s.main.Returned? && s.main.result.status != Canceled
  }

  /** Any failed job may be the one whose error is returned: a run that differs in nothing else
      returns it. */
  lemma AnyFailedCanBePicked(c: Config, s: State, j: Name) returns (t: State)
    requires WellFormed(c) && c.steps.Keys == c.deps.Keys && Complete(c, s)
    requires s.main.result.status == Failed && j in s.jobs && s.jobs[j].status == Failed
    ensures Complete(c, t) && t.jobs == s.jobs
    ensures t.main.result == s.main.result.(hasError := s.jobs[j].hasError)
  {
    hide WellFormed, Reachable, Inv, JudgedAt, EndedWell;
    InvReachable(c, s);
    AllEnded(c, s, j);
    EndedAs(c, s, j);
    ResultOfEnded(c.steps[j], j, s.jobs[j]);
    var p := JudgedOf(c, s);
    t := PickAt(c, p, s, j);
  }

  // ------------------------------------------------------------- the exact condition

  ghost predicate FailsIn(results: map<Name, JobResult>, j: Name) {
    j in results && results[j].status == Failed
  }

  /** All jobs that fail do so in Setup, or none of them does. */
  ghost predicate OneError(c: Config, results: map<Name, JobResult>) {
    forall j, k :: FailsIn(results, j) && FailsIn(results, k) ==> c.setupOk(j) == c.setupOk(k)
  }

  lemma FailedAsConfigured(c: Config, results: map<Name, JobResult>, j: Name)
    requires c.steps.Keys == c.deps.Keys && MeetsSpec(c, results) && FailsIn(results, j)
    ensures results[j].hasError == !c.setupOk(j)
  {
    hide Blocked, RunSteps;
  }

  /** What a complete run left in a job's record, in terms of the specified results. */
  lemma RecordAsSpecified(c: Config, results: map<Name, JobResult>, s: State)
    requires WellFormed(c) && !Cyclic(c.deps) && c.steps.Keys == c.deps.Keys && MeetsSpec(c, results) && Complete(c, s)
    ensures s.jobs.Keys == results.Keys
    ensures forall j :: j in s.jobs ==>
      s.jobs[j].status == results[j].status && s.jobs[j].hasError == results[j].hasError
  {
    hide WellFormed, Cyclic, Reachable, MeetsSpec, Inv, EndedWell;
    InvReachable(c, s);
    InvKeys(c, s);
    SpecDomain(c, results);
    RunMeetsSpec(c, s);
    SpecIsUnique(c, Outcomes(s), results);
    forall j | j in s.jobs ensures s.jobs[j].status == results[j].status && s.jobs[j].hasError == results[j].hasError {
      AllEnded(c, s, j);
      EndedAs(c, s, j);
      ResultOfEnded(c.steps[j], j, s.jobs[j]);
      assert Outcomes(s)[j] == s.jobs[j].result.value;
    }
  }

  lemma SameError(c: Config, results: map<Name, JobResult>, s: State, t: State)
    requires WellFormed(c) && !Cyclic(c.deps) && c.steps.Keys == c.deps.Keys && MeetsSpec(c, results)
    requires Complete(c, s) && Complete(c, t) && OneError(c, results)
    ensures s.main.result == t.main.result
  {
    hide WellFormed, Cyclic, Reachable, MeetsSpec, Inv;
    Confluence(c, s, t);
    InvReachable(c, s);
    InvReachable(c, t);
    RecordAsSpecified(c, results, s);
    RecordAsSpecified(c, results, t);
    VerdictMeaning(c, s);
    if s.main.result.status == Success {
      NoError(c, s);
      NoError(c, t);
    } else {
      FailedPipelineError(c, s);
      FailedPipelineError(c, t);
      var j :| j in s.jobs && s.jobs[j].status == Failed
               && s.main.result.hasError == s.jobs[j].hasError == !c.setupOk(j);
      var k :| k in t.jobs && t.jobs[k].status == Failed
               && t.main.result.hasError == t.jobs[k].hasError == !c.setupOk(k);
      assert FailsIn(results, j) && FailsIn(results, k);
    }
  }

  /** Two runs that return different errors. */
  lemma TwoErrors(c: Config, results: map<Name, JobResult>, j: Name, k: Name) returns (s: State, t: State)
    requires WellFormed(c) && !Cyclic(c.deps) && c.steps.Keys == c.deps.Keys && MeetsSpec(c, results)
    requires FailsIn(results, j) && FailsIn(results, k) && c.setupOk(j) != c.setupOk(k)
    ensures Complete(c, s) && Complete(c, t)
    ensures s.main.result == t.main.result.(hasError := !t.main.result.hasError)
  {
    hide WellFormed, Cyclic, Reachable, MeetsSpec, Inv, FailsIn;
    StartReached(c);
    var end := Completes(c, Init(c));
    InvReachable(c, end);
    UncancelledVerdict(c, end);
    FailsListed(results, j);
    FailsListed(results, k);
    FailedAsConfigured(c, results, j);
    FailedAsConfigured(c, results, k);
    RecordAsSpecified(c, results, end);
    VerdictMeaning(c, end);
    assert end.jobs[j].status == Failed;
    s := AnyFailedCanBePicked(c, end, j);
    t := AnyFailedCanBePicked(c, end, k);
  }

  lemma FailsListed(results: map<Name, JobResult>, j: Name)
    requires FailsIn(results, j)
    ensures j in results && results[j].status == Failed
  {
  }

  lemma StartReached(c: Config)
    requires c.steps.Keys == c.deps.Keys
    ensures Reachable(c, Init(c)) && !Init(c).cancelled
  {
    hide Enabled, Next;
    assert IsRun(c, [Init(c)], []);
    IsReached(c, [Init(c)], [], Init(c));
  }

  lemma UncancelledVerdict(c: Config, s: State)
    requires Inv(c, s) && s.main.Returned? && !s.cancelled
    ensures s.main.result.status != Canceled
  {
    hide Inv, OrderedResults, Clean;
    VerdictHolds(c, s);
  }

  /** All complete uncancelled runs of a pipeline return the same result, error included, exactly when the
      jobs that fail either all fail in Setup or all in a step. */
  lemma AgreeExactly(c: Config, results: map<Name, JobResult>)
    requires WellFormed(c) && !Cyclic(c.deps) && c.steps.Keys == c.deps.Keys && MeetsSpec(c, results)
    ensures OneError(c, results)
       <==> forall s, t :: Complete(c, s) && Complete(c, t) ==> s.main.result == t.main.result
  {
    hide WellFormed, Cyclic, MeetsSpec, Reachable, FailsIn;
    if OneError(c, results) {
      forall s, t | Complete(c, s) && Complete(c, t) ensures s.main.result == t.main.result {
        SameError(c, results, s, t);
      }
    } else {
      var j, k :| FailsIn(results, j) && FailsIn(results, k) && c.setupOk(j) != c.setupOk(k);
      var s, t := TwoErrors(c, results, j, k);
    }
  }

  // -------------------------------------------------------------------- an input

  /** Two jobs that know nothing of each other: the Setup of one fails, and the only step of the other. */
  const TWO_FAILURES :=
    Config(["a", "b"], map["a" := [], "b" := []], map["a" := 0, "b" := 1], j => j != "a", (_, _) => Exit(1))

  const BOTH_FAILED: map<Name, JobResult> :=
    map["a" := JobResult("a", Failed, [], true), "b" := JobResult("b", Failed, [Ran(Exit(1))], false)]

  lemma TwoFailuresRuns()
    ensures WellFormed(TWO_FAILURES) && TWO_FAILURES.steps.Keys == TWO_FAILURES.deps.Keys
    ensures !Cyclic(TWO_FAILURES.deps)
  {
    hide Cyclic;
    var rank: map<Name, nat> := map["a" := 0, "b" := 0];
    assert IsRanking(TWO_FAILURES.deps, rank);
    RankedIsAcyclic(TWO_FAILURES.deps, rank);
  }

  lemma TwoFailuresFail()
    ensures TWO_FAILURES.steps.Keys == TWO_FAILURES.deps.Keys && MeetsSpec(TWO_FAILURES, BOTH_FAILED)
  {
    hide RunSteps;
    var c := TWO_FAILURES;
    assert c.deps["a"] == [] && c.deps["b"] == [];
    assert !Blocked(c, BOTH_FAILED, "a") && !Blocked(c, BOTH_FAILED, "b");
    OneStep(c);
    assert [Ran(Exit(1))][0] in [Ran(Exit(1))] && Ran(Exit(1)) != Ran(Exit(0));
  }

  lemma OneStep(c: Config)
    requires c == TWO_FAILURES
    ensures RunSteps(c, "b", 0) == [Ran(Exit(1))]
  {
  }

  /** An input for which the error depends on the schedule. */
  lemma ErrorDiffers() returns (s: State, t: State)
    ensures WellFormed(TWO_FAILURES) && TWO_FAILURES.steps.Keys == TWO_FAILURES.deps.Keys
    ensures Complete(TWO_FAILURES, s) && Complete(TWO_FAILURES, t)
    ensures s.main.result == t.main.result.(hasError := !t.main.result.hasError)
  {
    hide WellFormed, Cyclic, MeetsSpec, Reachable;
    TwoFailuresRuns();
    TwoFailuresFail();
    s, t := TwoErrors(TWO_FAILURES, BOTH_FAILED, "a", "b");
  }
}
