/** The outcome of an uncancelled run does not depend on the interleaving: it is the one solution of
    the recursive specification, and what running the execution groups one after another gives. */
module EngineConfluence {
  import opened Names
  import opened Graphs
  import opened Model
  import opened Engine
  import opened EngineLocal
  import opened EngineInvariant
  import opened EngineSafety
  import opened Scheduler

  // ------------------------------------------------------- the specification

  /** The results of running steps `i..` one after another until one fails. */
  function RunSteps(c: Config, j: Name, i: nat): seq<StepResult>
    requires j in c.steps
    decreases if i < c.steps[j] then c.steps[j] - i else 0
  {
    if i >= c.steps[j] then []
    else
      var o := c.outcome(j, i);
      [Ran(o)] + if o == Exit(0) then RunSteps(c, j, i + 1) else []
  }

  /** What a job yields when it is run on its own. */
  function RunAlone(c: Config, j: Name): JobResult
    requires j in c.steps
  {
    if !c.setupOk(j) then JobResult(j, Failed, [], true)
    else
      var results := RunSteps(c, j, 0);
      JobResult(j, if forall r :: r in results ==> r == Ran(Exit(0)) then Success else Failed, results, false)
  }

  predicate Blocked(c: Config, results: map<Name, JobResult>, j: Name)
    requires j in c.deps
  {
    exists d :: d in c.deps[j] && d in results && results[d].status != Success
  }

  function ResultFor(c: Config, results: map<Name, JobResult>, j: Name): JobResult
    requires j in c.deps && j in c.steps
  {
    if Blocked(c, results, j) then JobResult(j, Skipped, [], false) else RunAlone(c, j)
  }

  /** Skipped when some dependency is not Success, otherwise what the runner says. */
  ghost predicate MeetsSpec(c: Config, results: map<Name, JobResult>)
    requires c.steps.Keys == c.deps.Keys
  {
    && results.Keys == c.deps.Keys
    && forall j :: j in c.deps ==> results[j] == ResultFor(c, results, j)
  }

  lemma SameBlocked(c: Config, a: map<Name, JobResult>, b: map<Name, JobResult>, j: Name)
    requires j in c.deps && forall d :: d in c.deps[j] ==> d in a && d in b && a[d] == b[d]
    ensures Blocked(c, a, j) == Blocked(c, b, j)
  {
  }

  /** On an acyclic graph the specification has at most one solution. */
  lemma SpecIsUnique(c: Config, a: map<Name, JobResult>, b: map<Name, JobResult>)
    requires WellFormed(c) && !Cyclic(c.deps) && MeetsSpec(c, a) && MeetsSpec(c, b)
    ensures a == b
  {
    hide MeetsSpec, IsRanking, Cyclic, Known;
    KnownDeps(c);
    var rank := AcyclicIsRanked(c.deps);
    RankDomain(c.deps, rank);
    SpecDomain(c, a);
    SpecDomain(c, b);
    forall j | j in c.deps ensures a[j] == b[j] { SameResult(c, rank, a, b, j); }
  }

  lemma SpecDomain(c: Config, a: map<Name, JobResult>)
    requires c.steps.Keys == c.deps.Keys && MeetsSpec(c, a)
    ensures a.Keys == c.deps.Keys
  {
  }

  lemma {:induction false} SameResult(c: Config, rank: map<Name, nat>, a: map<Name, JobResult>,
                                  b: map<Name, JobResult>, j: Name)
    requires WellFormed(c) && IsRanking(c.deps, rank) && MeetsSpec(c, a) && MeetsSpec(c, b)
    requires j in c.deps && j in rank
    ensures a[j] == b[j]
    decreases rank[j]
  {
    hide RunAlone, Blocked;
    forall d | d in c.deps[j] ensures d in a && d in b && a[d] == b[d] {
      assert Edge(c.deps, j, d);
      SameResult(c, rank, a, b, d);
    }
    SameBlocked(c, a, b, j);
  }

  // ------------------------------------------------ every uncancelled run meets it

  ghost function Outcomes(s: State): map<Name, JobResult>
    requires forall j :: j in s.jobs ==> s.jobs[j].result.Some?
  {
    map j | j in s.jobs :: s.jobs[j].result.value
  }

  /** Faithful outcomes, all passed but perhaps the last, and none missing after a pass, are exactly
      what running the steps gives. */
  lemma {:induction false} StepsAsRun(c: Config, j: Name, results: seq<StepResult>, i: nat)
    requires j in c.steps && i <= |results| <= c.steps[j]
    requires forall k :: 0 <= k < |results| ==> results[k] == Ran(c.outcome(j, k))
    requires forall k :: 0 <= k < |results| - 1 ==> StatusOf(results[k]) == Success
    requires |results| == c.steps[j] || LastNotGreen(results)
    requires i == |results| ==> results == [] || StatusOf(results[i - 1]) == Success
    ensures RunSteps(c, j, i) == results[i..]
    decreases |results| - i
  {
    if i == |results| {
    } else {
      assert results[i] == Ran(c.outcome(j, i));
      assert results[i..] == [results[i]] + results[i + 1..];
      if StatusOf(results[i]) == Success {
        StepsAsRun(c, j, results, i + 1);
      }
    }
  }

  lemma ResultsAreRuns(c: Config, j: Name, r: JobRec)
    requires j in c.steps && Executed(c.steps[j], r) && Faithful(c, j, r) && !r.hasError
    ensures forall k :: 0 <= k < |r.results| ==> r.results[k] == Ran(c.outcome(j, k))
    ensures forall k :: 0 <= k < |r.results| - 1 ==> StatusOf(r.results[k]) == Success
    ensures |r.results| <= c.steps[j]
    ensures if r.status == Success then |r.results| == c.steps[j] && Green(r.results) else LastNotGreen(r.results)
  {
    hide StatusLine;
    assert r.results == ResultsOf(r.done);
    forall k | 0 <= k < |r.results| - 1 ensures StatusOf(r.results[k]) == Success {
      assert r.results[..|r.results| - 1][k] == r.results[k];
    }
  }

  lemma ExecutedAsAlone(c: Config, j: Name, r: JobRec)
    requires j in c.steps && Executed(c.steps[j], r) && Faithful(c, j, r)
    requires r.hasError || c.setupOk(j)
    ensures JobResult(j, r.status, r.results, r.hasError) == RunAlone(c, j)
  {
    hide StepsConserved, RunSteps;
    if !r.hasError {
      ResultsAreRuns(c, j, r);
      hide Executed, Faithful;
      StepsAsRun(c, j, r.results, 0);
      assert r.results[0..] == r.results;
      if r.status == Failed { assert r.results[|r.results| - 1] in r.results; }
    }
  }

  /** The dependencies of an ended job, as the skip rule sees them. */
  lemma BlockedAsSkipped(c: Config, s: State, j: Name)
    requires Inv(c, s) && j in s.jobs && j in c.deps && s.jobs[j].status != Canceled && s.jobs[j].pc.Exited?
    requires forall k :: k in s.jobs ==> s.jobs[k].result.Some? && s.jobs[k].result.value.status == s.jobs[k].status
    ensures Blocked(c, Outcomes(s), j) <==> s.jobs[j].status == Skipped
  {
    hide Inv;
    if s.jobs[j].status == Skipped {
      var d := BadDependency(c, s, j);
      assert d in c.deps[j] && Outcomes(s)[d].status != Success;
    } else {
      forall d | d in c.deps[j] ensures d in Outcomes(s) && Outcomes(s)[d].status == Success {
        assert Edge(c.deps, j, d);
        DepsOfExecuting(c, s, j, d);
      }
    }
  }

  lemma EndedMeetsSpec(c: Config, s: State, j: Name)
    requires Inv(c, s) && j in s.jobs && j in c.deps && j in c.steps && Closed(s, j) && s.jobs[j].pc.Exited?
    requires s.jobs[j].status != Canceled && Faithful(c, j, s.jobs[j])
    requires forall k :: k in s.jobs ==> s.jobs[k].result.Some? && s.jobs[k].result.value.status == s.jobs[k].status
    ensures Outcomes(s)[j] == ResultFor(c, Outcomes(s), j)
  {
    hide Inv, Blocked, RunAlone, Executed, Faithful;
    BlockedAsSkipped(c, s, j);
    EndedAs(c, s, j);
    if s.jobs[j].status != Skipped {
      ErrorIsSetup(c, j, s.jobs[j]);
      ExecutedAsAlone(c, j, s.jobs[j]);
    }
  }

  lemma CleanVerdict(c: Config, s: State, j: Name)
    requires Inv(c, s) && s.main.Returned? && s.main.result.status != Canceled && j in s.jobs
    ensures s.jobs[j].status != Canceled && Faithful(c, j, s.jobs[j])
  {
    hide Faithful, JobInv, WellFormed, OrderedResults, JobActsOnly;
  }

  lemma ReturnedResults(c: Config, s: State)
    requires Inv(c, s) && s.main.Returned?
    ensures forall k :: k in s.jobs ==> s.jobs[k].result.Some? && s.jobs[k].result.value.status == s.jobs[k].status
    ensures s.main.result.jobs == OrderedResults(c.order, s.jobs)
  {
    hide Inv, OrderedResults;
    forall k | k in s.jobs ensures s.jobs[k].result.Some? && s.jobs[k].result.value.status == s.jobs[k].status {
      AllEnded(c, s, k);
      EndedAs(c, s, k);
      ResultOfEnded(c.steps[k], k, s.jobs[k]);
    }
    VerdictHolds(c, s);
  }

  /** Every complete run that is not cancelled ends with the specified result for every job, statuses
      and step results alike, whatever the interleaving was. */
  lemma RunMeetsSpec(c: Config, s: State)
    requires WellFormed(c) && Reachable(c, s) && s.main.Returned? && s.main.result.status != Canceled
    ensures c.steps.Keys == c.deps.Keys
    ensures forall k :: k in s.jobs ==> s.jobs[k].result.Some?
    ensures MeetsSpec(c, Outcomes(s))
    ensures |s.main.result.jobs| == |c.order|
    ensures forall i :: 0 <= i < |c.order| ==>
      c.order[i] in Outcomes(s) && s.main.result.jobs[i] == Outcomes(s)[c.order[i]]
  {
    hide WellFormed, Reachable, Inv, ResultFor, Faithful, OrderedResults;
    InvReachable(c, s);
    SameKeys(c);
    InvKeys(c, s);
    ReturnedResults(c, s);
    forall j | j in c.deps ensures Outcomes(s)[j] == ResultFor(c, Outcomes(s), j) {
      AllEnded(c, s, j);
      CleanVerdict(c, s, j);
      EndedMeetsSpec(c, s, j);
    }
    OrderedAll(c.order, s.jobs);
  }

  /** Confluence: two complete uncancelled runs of the same pipeline return the same job results and the
      same verdict. Whether they return the same error is EngineVerdict.AgreeExactly. */
  lemma Confluence(c: Config, s: State, t: State)
    requires WellFormed(c) && !Cyclic(c.deps) && Reachable(c, s) && Reachable(c, t)
    requires s.main.Returned? && s.main.result.status != Canceled
    requires t.main.Returned? && t.main.result.status != Canceled
    ensures s.main.result.jobs == t.main.result.jobs && s.main.result.status == t.main.result.status
  {
    hide WellFormed, Reachable, MeetsSpec, Cyclic;
    RunMeetsSpec(c, s);
    RunMeetsSpec(c, t);
    SpecIsUnique(c, Outcomes(s), Outcomes(t));
    SameVerdict(c, s, t);
    SameVerdict(c, t, s);
  }

  lemma SameVerdict(c: Config, s: State, t: State)
    requires WellFormed(c) && Reachable(c, s) && Reachable(c, t)
    requires s.main.Returned? && s.main.result.status != Canceled
    requires t.main.Returned? && t.main.result.status != Canceled
    requires (forall k :: k in s.jobs ==> s.jobs[k].result.Some?)
         && (forall k :: k in t.jobs ==> t.jobs[k].result.Some?)
    requires Outcomes(s) == Outcomes(t)
    ensures s.main.result.status == Failed ==> t.main.result.status == Failed
    ensures s.main.result.status == Success || s.main.result.status == Failed
  {
    hide WellFormed, Reachable, Inv, Faithful, OrderedResults;
    InvReachable(c, s);
    InvReachable(c, t);
    VerdictHolds(c, s);
    VerdictHolds(c, t);
    if s.main.result.status == Failed {
      var j :| HasFailedResult(s, j);
      assert Outcomes(s)[j] == Outcomes(t)[j] && j in Outcomes(t);
      assert HasFailedResult(t, j);
    }
  }

  // ------------------------------------------------ running group after group

  /** Runs a group against the results of the earlier groups only. */
  ghost function RunGroup(c: Config, group: seq<Name>, before: map<Name, JobResult>): map<Name, JobResult>
    requires forall n :: n in group ==> n in c.deps && n in c.steps
  {
    before + map n | n in group :: ResultFor(c, before, n)
  }

  /** The first `k` groups, one after another. */
  ghost function RunGroups(c: Config, groups: seq<seq<Name>>, k: nat): map<Name, JobResult>
    requires k <= |groups|
    requires forall i, n :: 0 <= i < |groups| && n in groups[i] ==> n in c.deps && n in c.steps
  {
    if k == 0 then map[] else RunGroup(c, groups[k - 1], RunGroups(c, groups, k - 1))
  }

  lemma GroupsInConfig(c: Config, groups: seq<seq<Name>>)
    requires WellFormed(c) && IsLevels(c.deps, groups)
    ensures forall i, n :: 0 <= i < |groups| && n in groups[i] ==> n in c.deps && n in c.steps
    ensures c.steps.Keys == c.deps.Keys
  {
    hide LongestChain;
  }

  lemma InGroup(g: Graph, groups: seq<seq<Name>>, i: nat, n: Name)
    requires IsLevels(g, groups) && i < |groups|
    ensures n in groups[i] <==> n in g && LevelOf(g, groups, n) == i
  {
    hide LongestChain;
    if n in groups[i] { LongestUnique(g, n, i, LevelOf(g, groups, n)); }
  }

  /** Which jobs are done after `k` groups: those of level below `k`. */
  lemma {:induction false} GroupsDone(c: Config, groups: seq<seq<Name>>, k: nat)
    requires WellFormed(c) && IsLevels(c.deps, groups) && k <= |groups|
    requires forall i, n :: 0 <= i < |groups| && n in groups[i] ==> n in c.deps && n in c.steps
    ensures forall n :: n in RunGroups(c, groups, k) <==> n in c.deps && LevelOf(c.deps, groups, n) < k
  {
    hide LongestChain, ResultFor, WellFormed, IsLevels;
    if k == 0 {
    } else {
      GroupsDone(c, groups, k - 1);
      forall n { InGroup(c.deps, groups, k - 1, n); }
    }
  }

  lemma NoGroups(c: Config, groups: seq<seq<Name>>)
    requires forall i, n :: 0 <= i < |groups| && n in groups[i] ==> n in c.deps && n in c.steps
    ensures RunGroups(c, groups, 0) == map[]
  {
  }

  lemma LevelIsGroup(g: Graph, groups: seq<seq<Name>>, n: Name)
    requires IsLevels(g, groups) && n in g
    ensures n in groups[LevelOf(g, groups, n)]
  {
  }

  lemma {:induction false} GroupsSolve(c: Config, groups: seq<seq<Name>>, k: nat)
    requires WellFormed(c) && IsLevels(c.deps, groups) && k <= |groups|
    requires forall i, n :: 0 <= i < |groups| && n in groups[i] ==> n in c.deps && n in c.steps
    ensures forall n :: n in RunGroups(c, groups, k) ==>
      n in c.deps && n in c.steps && RunGroups(c, groups, k)[n] == ResultFor(c, RunGroups(c, groups, k), n)
  {
    hide LongestChain, ResultFor, IsLevels, WellFormed, RunGroups;
    if k == 0 {
      NoGroups(c, groups);
    } else {
      var before, after := RunGroups(c, groups, k - 1), RunGroups(c, groups, k);
      GroupsDone(c, groups, k);
      GroupsDone(c, groups, k - 1);
      GroupsSolve(c, groups, k - 1);
      forall n | n in after ensures n in c.deps && n in c.steps && after[n] == ResultFor(c, after, n) {
        DepsDoneEarlier(c, groups, k, n);
        LevelIsGroup(c.deps, groups, n);
        GroupFixes(c, groups, k, n);
      }
    }
  }

  /** Every dependency of a job in the first `k` groups is in the first `k - 1`. */
  lemma DepsDoneEarlier(c: Config, groups: seq<seq<Name>>, k: nat, n: Name)
    requires WellFormed(c) && IsLevels(c.deps, groups) && 0 < k <= |groups| && n in c.deps
    requires LevelOf(c.deps, groups, n) < k
    ensures forall d :: d in c.deps[n] ==> d in c.deps && LevelOf(c.deps, groups, d) < k - 1 && d !in groups[k - 1]
  {
    hide LongestChain, IsRanking;
    LevelsRank(c.deps, groups);
    forall d | d in c.deps[n] ensures d in c.deps && LevelOf(c.deps, groups, d) < k - 1 && d !in groups[k - 1] {
      assert Edge(c.deps, n, d);
      RankEdge(c.deps, LevelRank(c.deps, groups), n, d);
      if d in groups[k - 1] { LongestUnique(c.deps, d, k - 1, LevelOf(c.deps, groups, d)); }
    }
  }

  lemma GroupFixes(c: Config, groups: seq<seq<Name>>, k: nat, n: Name)
    requires 0 < k <= |groups| && n in c.deps && n in c.steps
    requires forall i, m :: 0 <= i < |groups| && m in groups[i] ==> m in c.deps && m in c.steps
    requires var before := RunGroups(c, groups, k - 1);
      && (forall d :: d in c.deps[n] ==> d in before && (d !in groups[k - 1]))
      && (n in before && n !in groups[k - 1] ==> before[n] == ResultFor(c, before, n))
      && (n in before || n in groups[k - 1])
    ensures n in RunGroups(c, groups, k) && RunGroups(c, groups, k)[n] == ResultFor(c, RunGroups(c, groups, k), n)
  {
    hide RunAlone, Blocked;
    SameBlocked(c, RunGroups(c, groups, k - 1), RunGroups(c, groups, k), n);
  }

  /** Running Schedule's groups one after another solves the specification. */
  lemma GroupsMeetSpec(c: Config, groups: seq<seq<Name>>)
    requires WellFormed(c) && IsLevels(c.deps, groups)
    requires forall i, n :: 0 <= i < |groups| && n in groups[i] ==> n in c.deps && n in c.steps
    ensures c.steps.Keys == c.deps.Keys && MeetsSpec(c, RunGroups(c, groups, |groups|))
  {
    hide LongestChain, ResultFor, IsLevels, RunGroups;
    GroupsInConfig(c, groups);
    GroupsDone(c, groups, |groups|);
    GroupsSolve(c, groups, |groups|);
  }

  /** The job-parallel engine refines the group-by-group execution that the documentation describes:
      every complete uncancelled run returns the results of running the groups in sequence. */
  lemma RefinesGroups(c: Config, groups: seq<seq<Name>>, s: State)
    requires WellFormed(c) && IsLevels(c.deps, groups) && Reachable(c, s)
    requires s.main.Returned? && s.main.result.status != Canceled
    requires forall i, n :: 0 <= i < |groups| && n in groups[i] ==> n in c.deps && n in c.steps
    ensures |s.main.result.jobs| == |c.order|
    ensures forall i :: 0 <= i < |c.order| ==>
      && c.order[i] in RunGroups(c, groups, |groups|)
      && s.main.result.jobs[i] == RunGroups(c, groups, |groups|)[c.order[i]]
  {
    hide LongestChain, ResultFor, RunGroups, Reachable, IsLevels, MeetsSpec, IsRanking, Cyclic, Known, WellFormed;
    GroupsMeetSpec(c, groups);
    RunMeetsSpec(c, s);
    KnownDeps(c);
    LevelsRank(c.deps, groups);
    SpecIsUnique(c, Outcomes(s), RunGroups(c, groups, |groups|));
  }

  // --------------------------------------------------- the result as specified

  /** The results of the jobs, in pipeline order. */
  ghost predicate InOrder(order: seq<Name>, results: map<Name, JobResult>, jobs: seq<JobResult>) {
    |jobs| == |order| && forall i :: 0 <= i < |order| ==> order[i] in results && jobs[i] == results[order[i]]
  }

  ghost predicate SomeFailed(jobs: seq<JobResult>, hasError: bool) {
    exists i :: 0 <= i < |jobs| && jobs[i].status == Failed && jobs[i].hasError == hasError
  }

  /** Success without an error if all jobs succeeded, and otherwise Failed with the error of a failed job. */
  ghost predicate VerdictFits(res: PipelineResult) {
    if forall i :: 0 <= i < |res.jobs| ==> res.jobs[i].status == Success then res.status == Success && !res.hasError
    else res.status == Failed && SomeFailed(res.jobs, res.hasError)
  }

  /** `res` is the specified result: every job's, in pipeline order, and the verdict that fits them. */
  ghost predicate Specified(c: Config, res: PipelineResult)
    requires c.steps.Keys == c.deps.Keys
  {
    (exists results :: MeetsSpec(c, results) && InOrder(c.order, results, res.jobs)) && VerdictFits(res)
  }

  lemma RunVerdictFits(c: Config, s: State)
    requires WellFormed(c) && !Cyclic(c.deps) && Reachable(c, s) && s.main.Returned? && s.main.result.status != Canceled
    ensures VerdictFits(s.main.result)
  {
    hide WellFormed, Cyclic, Reachable, Inv, JobConserved;
    var res := s.main.result;
    InvReachable(c, s);
    InvKeys(c, s);
    VerdictMeaning(c, s);
    ResultsConserved(c, s);
    if res.status == Success {
      NoError(c, s);
    } else {
      FailedPipelineError(c, s);
      var j :| j in s.jobs && s.jobs[j].status == Failed && res.hasError == s.jobs[j].hasError;
      var i :| 0 <= i < |c.order| && c.order[i] == j;
      assert res.jobs[i].status == Failed && res.jobs[i].hasError == res.hasError;
    }
  }

  /** What a run returns that is not cancelled before the final check. */
  lemma RunIsSpecified(c: Config, s: State)
    requires WellFormed(c) && !Cyclic(c.deps) && Reachable(c, s) && s.main.Returned? && s.main.result.status != Canceled
    ensures c.steps.Keys == c.deps.Keys && Specified(c, s.main.result)
  {
    hide WellFormed, Cyclic, Reachable, MeetsSpec, VerdictFits;
    RunMeetsSpec(c, s);
    assert InOrder(c.order, Outcomes(s), s.main.result.jobs);
    RunVerdictFits(c, s);
  }

  lemma NoError(c: Config, s: State)
    requires Inv(c, s) && s.main.Returned? && s.main.result.status == Success
    ensures !s.main.result.hasError
  {
    hide Inv, OrderedResults, Clean;
    VerdictHolds(c, s);
  }
}
