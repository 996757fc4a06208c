/** Configuration checks and the validator's own cycle search (internal/core/config.go). */
module Validator {
  import opened Names
  import opened Graphs
  import opened Model

  datatype ConfigError =
    | NoPipelineName
    | NoJobs
    | NoImage(job: Name)
    | NoSteps(job: Name)
    | NoRunCommand(job: Name, index: nat)
    | DuplicateStepName(job: Name, name: string)
    | UnknownJob(job: Name, dep: Name)
    | CycleDetected(nodes: seq<Name>)

  function DepsOf(c: PipelineDef): Graph {
    map n | n in c.jobs :: c.jobs[n].dependsOn
  }

  // ---------------------------------------------------- what is being checked

  ghost predicate UniqueStepNames(steps: seq<StepDef>) {
    forall i, k :: 0 <= i < k < |steps| && steps[i].name != "" ==> steps[i].name != steps[k].name
  }

  ghost predicate StepsRun(steps: seq<StepDef>) {
    forall i :: 0 <= i < |steps| ==> steps[i].run != ""
  }

  ghost predicate JobOk(c: PipelineDef, job: JobDef) {
    && job.image != "" && job.steps != []
    && StepsRun(job.steps) && UniqueStepNames(job.steps)
    && forall d :: d in job.dependsOn ==> d in c.jobs
  }

  ghost predicate JobsOk(c: PipelineDef) {
    forall n :: n in c.jobs ==> JobOk(c, c.jobs[n])
  }

  ghost predicate ValidConfig(c: PipelineDef) {
    && c.name != "" && c.jobs != map[]
    && JobsOk(c)
    && !Cyclic(DepsOf(c))
  }

  /** The nodes of a cycle, each depending on the next and the last on the first. The closing node
      is not repeated, except that a job depending on itself is listed twice. */
  ghost predicate ListsCycle(g: Graph, nodes: seq<Name>) {
    && |nodes| >= 2 && IsPath(g, nodes) && Edge(g, Last(nodes), nodes[0])
    && (Distinct(nodes) || nodes == [nodes[0], nodes[0]])
  }

  /** Step `i` is the first bad one of a job, and `e` says what is wrong with it: a missing run command
      is noticed before a repeated name. */
  ghost predicate StepComplains(name: Name, steps: seq<StepDef>, i: nat, e: ConfigError)
    requires i < |steps|
  {
    && StepsRun(steps[..i]) && UniqueStepNames(steps[..i])
    && match e
       case NoRunCommand(j, k) => j == name && k == i && steps[i].run == ""
       case DuplicateStepName(j, s) =>
         && j == name && steps[i].run != "" && s == steps[i].name != ""
         && exists k :: 0 <= k < i && steps[k].name == s
       case _ => false
  }

  /** Dependency `i` is the first unknown one of a job, and `e` names it. */
  ghost predicate DepComplains(c: PipelineDef, name: Name, deps: seq<Name>, i: nat, e: ConfigError)
    requires i < |deps|
  {
    e == UnknownJob(name, deps[i]) && deps[i] !in c.jobs && forall k :: 0 <= k < i ==> deps[k] in c.jobs
  }

  /** `e` is the first complaint about a job: image, steps, each step in turn, then the dependencies. */
  ghost predicate JobComplains(c: PipelineDef, name: Name, job: JobDef, e: ConfigError) {
    if job.image == "" then e == NoImage(name)
    else if job.steps == [] then e == NoSteps(name)
    else if !(StepsRun(job.steps) && UniqueStepNames(job.steps)) then
      exists i :: 0 <= i < |job.steps| && StepComplains(name, job.steps, i, e)
    else
      exists i :: 0 <= i < |job.dependsOn| && DepComplains(c, name, job.dependsOn, i, e)
  }

  /** `e` is what Validate may report: the pipeline's own complaints come first, then the first complaint
      about some job, and a cycle only if all jobs are sound. */
  ghost predicate Complains(c: PipelineDef, e: ConfigError) {
    if c.name == "" then e == NoPipelineName
    else if c.jobs == map[] then e == NoJobs
    else if JobsOk(c) then e.CycleDetected? && ListsCycle(DepsOf(c), e.nodes)
    else exists n :: n in c.jobs && !JobOk(c, c.jobs[n]) && JobComplains(c, n, c.jobs[n], e)
  }

  lemma BadStepStays(name: Name, steps: seq<StepDef>, i: nat, k: nat, e: ConfigError)
    requires i < k <= |steps| && StepComplains(name, steps, i, e)
    ensures e.NoRunCommand? ==> !StepsRun(steps[..k])
    ensures e.DuplicateStepName? ==> !UniqueStepNames(steps[..k])
  {
    assert steps[..k][i] == steps[i];
    if e.DuplicateStepName? {
      var m :| 0 <= m < i && steps[m].name == e.name;
      assert steps[..k][m] == steps[m];
    }
  }

  /** There is only one first complaint about a job. */
  lemma ComplaintIsUnique(c: PipelineDef, name: Name, job: JobDef, e: ConfigError, f: ConfigError)
    requires JobComplains(c, name, job, e) && JobComplains(c, name, job, f)
    ensures e == f
  {
    if job.image == "" || job.steps == [] {
    } else if StepsRun(job.steps) && UniqueStepNames(job.steps) {
    } else {
      var i :| 0 <= i < |job.steps| && StepComplains(name, job.steps, i, e);
      var k :| 0 <= k < |job.steps| && StepComplains(name, job.steps, k, f);
      if i < k { BadStepStays(name, job.steps, i, k, e); }
      if k < i { BadStepStays(name, job.steps, k, i, f); }
    }
  }

  lemma ListedCycleIsCycle(g: Graph, nodes: seq<Name>)
    requires ListsCycle(g, nodes)
    ensures Cyclic(g)
  {
    var p := nodes + [nodes[0]];
    forall i | 0 <= i < |p| - 1 ensures Edge(g, p[i], p[i + 1]) {
      if i < |nodes| - 1 { assert Edge(g, nodes[i], nodes[i + 1]); }
    }
    assert IsCycle(g, p);
  }

  // ------------------------------------------------------------ detectCycles

  /** The maps that the recursive closure in detectCycles shares with its caller. */
  class CycleDetector {
    const deps: Graph
    var state: map<Name, Mark>
    var parent: map<Name, Name>
    ghost var stack: seq<Name>
    ghost var order: seq<Name>

    constructor (deps: Graph)
      ensures this.deps == deps && Valid() && stack == [] && order == []
    {
      this.deps := deps;
      state, parent, stack, order := map[], map[], [], [];
    }

    ghost predicate Valid()
      reads this
    {
      IsSearch(deps, state, parent, stack, order)
    }

    method Dfs(job: Name) returns (cycle: Option<seq<Name>>)
      requires Valid() && CanPush(deps, state, parent, stack, job)
      modifies this
      ensures cycle.None? ==> Valid() && stack == old(stack) && old(order) <= order && job in order
      ensures cycle.None? ==> UnvisitedNodes(deps, state) <= UnvisitedNodes(deps, old(state))
      ensures cycle.Some? ==> ListsCycle(deps, cycle.value)
      decreases |UnvisitedNodes(deps, state)|
    {
      hide IsSearch, CanPush, UnvisitedNodes, ListsCycle;
      Push(deps, state, parent, stack, order, job);
      state := state[job := InStack];
      stack := stack + [job];
      ghost var unseen := UnvisitedNodes(deps, state);

      var jobDeps := Deps(deps, job);
      for i := 0 to |jobDeps|
        invariant Valid() && stack == old(stack) + [job] && old(order) <= order
        invariant forall k :: 0 <= k < i ==> jobDeps[k] in order
        invariant UnvisitedNodes(deps, state) <= unseen
      {
        var dep := jobDeps[i];
        assert Edge(deps, job, dep);
        match MarkOf(state, dep)
        case InStack =>
          var nodes := BuildCycle(dep, job);
          return Some(nodes);
        case Unvisited =>
          Adopt(deps, state, parent, stack, order, job, dep);
          parent := parent[dep := job];
          SubsetSize(UnvisitedNodes(deps, state), unseen);
          var inner := Dfs(dep);
          if inner.Some? { return inner; }
        case Visited =>
          VisitedIsFinished(deps, state, parent, stack, order);
      }
      Pop(deps, state, parent, old(stack), order, job);
      state := state[job := Visited];
      stack, order := old(stack), order + [job];
      return None;
    }

    /** Collects the nodes between `job`, the top of the stack, and `dep` below it. */
    method BuildCycle(dep: Name, job: Name) returns (cycle: seq<Name>)
      requires Valid() && stack != [] && Last(stack) == job
      requires Edge(deps, job, dep) && MarkOf(state, dep) == InStack
      ensures ListsCycle(deps, cycle) && ListedFrom(stack, dep, cycle)
    {
      hide IsSearch, ListsCycle, IsPath, Reversed;
      ghost var k := OnStack(deps, state, parent, stack, order, dep);
      ghost var top := |stack| - 1;
      ghost var t := top;
      cycle := [dep, job];
      var cur := job;
      while cur != dep
        invariant k <= t <= top && cur == stack[t]
        invariant cycle == [dep, job] + Reversed(stack[t..top])
        invariant k < t || k == top
        decreases t
      {
        assert Link(deps, parent, stack[t - 1], stack[t - 1 + 1]);
        cur := parent[cur];
        if cur == dep { break; }
        ReversedGrows(stack, t, top);
        cycle := cycle + [cur];
        t := t - 1;
      }
      assert k < top ==> t == k + 1;
      cycle := ReverseSlice(cycle);
      assert cycle == if k == top then [dep, dep] else stack[k + 1..] + [dep] by {
        if k == top { assert cycle == [job, job]; } else { ReversedAll(stack, k, dep); }
      }
      if k == top {
        assert cycle == [job, job];
        SelfCycle(deps, job);
      } else {
        AfterBackEdge(deps, parent, stack, k);
      }
    }
  }

  /** The stack entries above `dep`, from the bottom up, and then `dep`; twice `dep` if it is the top. */
  ghost predicate ListedFrom(stack: seq<Name>, dep: Name, cycle: seq<Name>) {
    exists k :: 0 <= k < |stack| && stack[k] == dep
      && cycle == if k == |stack| - 1 then [dep, dep] else stack[k + 1..] + [dep]
  }

  lemma ReversedGrows(stack: seq<Name>, t: nat, top: nat)
    requires 0 < t <= top < |stack|
    ensures Reversed(stack[t - 1..top]) == Reversed(stack[t..top]) + [stack[t - 1]]
  {
  }

  lemma ReversedAll(stack: seq<Name>, k: nat, dep: Name)
    requires k < |stack| - 1
    ensures Reversed([dep, Last(stack)] + Reversed(stack[k + 1..|stack| - 1])) == stack[k + 1..] + [dep]
  {
  }

  lemma OnStack(g: Graph, marks: map<Name, Mark>, parent: map<Name, Name>, stack: seq<Name>, order: seq<Name>, n: Name)
    returns (k: nat)
    requires IsSearch(g, marks, parent, stack, order) && MarkOf(marks, n) == InStack
    ensures IsStack(g, parent, stack) && k < |stack| && stack[k] == n
  {
    k :| 0 <= k < |stack| && stack[k] == n;
  }

  lemma SelfCycle(g: Graph, n: Name)
    requires Edge(g, n, n)
    ensures ListsCycle(g, [n, n])
  {
  }

  lemma AfterBackEdge(g: Graph, parent: map<Name, Name>, stack: seq<Name>, k: nat)
    requires IsStack(g, parent, stack) && k < |stack| - 1 && Edge(g, Last(stack), stack[k])
    ensures ListsCycle(g, stack[k + 1..] + [stack[k]])
  {
    var c := stack[k + 1..] + [stack[k]];
    assert Link(g, parent, stack[k], stack[k + 1]);
    forall i | 0 <= i < |c| - 1 ensures Edge(g, c[i], c[i + 1]) {
      if i < |c| - 2 { assert Link(g, parent, stack[k + 1 + i], stack[k + 1 + i + 1]); }
    }
  }

  /** For every order in which the job map is walked: an error exactly when the graph is cyclic. */
  method DetectCycles(c: PipelineDef) returns (cycle: Option<seq<Name>>)
    ensures cycle.Some? <==> Cyclic(DepsOf(c))
    ensures cycle.Some? ==> ListsCycle(DepsOf(c), cycle.value)
  {
    ghost var g := DepsOf(c);
    var detector := new CycleDetector(DepsOf(c));
    var todo := c.jobs.Keys;
    while todo != {}
      invariant fresh(detector) && detector.deps == g && detector.Valid() && detector.stack == []
      invariant todo <= c.jobs.Keys
      invariant forall n :: n in c.jobs && n !in todo ==> n in detector.order
      decreases |todo|
    {
      hide IsSearch, ListsCycle, UnvisitedNodes, Cyclic;
      var jobName :| jobName in todo;
      if MarkOf(detector.state, jobName) == Unvisited {
        assert CanPush(g, detector.state, detector.parent, detector.stack, jobName);
        var found := detector.Dfs(jobName);
        if found.Some? {
          ListedCycleIsCycle(g, found.value);
          return found;
        }
      } else {
        EmptyStackVisited(g, detector.state, detector.parent, detector.order, jobName);
      }
      todo := todo - {jobName};
    }
    FinishOrderIsAcyclic(g, detector.order);
    return None;
  }

  lemma EmptyStackVisited(g: Graph, marks: map<Name, Mark>, parent: map<Name, Name>, order: seq<Name>, n: Name)
    requires IsSearch(g, marks, parent, [], order) && MarkOf(marks, n) != Unvisited
    ensures n in order
  {
    assert n !in [];
  }

  // ---------------------------------------------------------------- Validate

  method CheckSteps(name: Name, steps: seq<StepDef>) returns (e: Option<ConfigError>)
    ensures e.None? <==> StepsRun(steps) && UniqueStepNames(steps)
    ensures e.Some? ==> exists i :: 0 <= i < |steps| && StepComplains(name, steps, i, e.value)
  {
    var stepNames: set<string> := {};
    for i := 0 to |steps|
      invariant StepsRun(steps[..i]) && UniqueStepNames(steps[..i])
      invariant forall s :: s in stepNames <==> s != "" && exists k :: 0 <= k < i && steps[k].name == s
    {
      var step := steps[i];
      if step.run == "" {
        assert StepComplains(name, steps, i, NoRunCommand(name, i));
        return Some(NoRunCommand(name, i));
      }
      if step.name != "" {
        if step.name in stepNames {
          assert StepComplains(name, steps, i, DuplicateStepName(name, step.name));
          return Some(DuplicateStepName(name, step.name));
        }
        stepNames := stepNames + {step.name};
      }
    }
    assert steps[..|steps|] == steps;
    return None;
  }

  method CheckJob(c: PipelineDef, name: Name) returns (e: Option<ConfigError>)
    requires name in c.jobs
    ensures e.None? <==> JobOk(c, c.jobs[name])
    ensures e.Some? ==> JobComplains(c, name, c.jobs[name], e.value)
  {
    hide StepsRun, UniqueStepNames, StepComplains;
    var job := c.jobs[name];
    if job.image == "" { return Some(NoImage(name)); }
    if job.steps == [] { return Some(NoSteps(name)); }
    e := CheckSteps(name, job.steps);
    if e.Some? { return; }
    for k := 0 to |job.dependsOn|
      invariant forall k' :: 0 <= k' < k ==> job.dependsOn[k'] in c.jobs
    {
      if job.dependsOn[k] !in c.jobs {
        assert DepComplains(c, name, job.dependsOn, k, UnknownJob(name, job.dependsOn[k]));
        return Some(UnknownJob(name, job.dependsOn[k]));
      }
    }
  }

  /** Accepts exactly the valid configurations, in every map order; a rejection is the first complaint
      of the fixed check order about some job. */
  method Validate(c: PipelineDef) returns (e: Option<ConfigError>)
    ensures e.None? <==> ValidConfig(c)
    ensures e.Some? ==> Complains(c, e.value)
  {
    hide JobOk, JobComplains, Cyclic, ListsCycle;
    if c.name == "" { return Some(NoPipelineName); }
    if c.jobs == map[] { return Some(NoJobs); }
    var todo := c.jobs.Keys;
    while todo != {}
      invariant todo <= c.jobs.Keys
      invariant forall n :: n in c.jobs && n !in todo ==> JobOk(c, c.jobs[n])
      decreases |todo|
    {
      var jobName :| jobName in todo;
      e := CheckJob(c, jobName);
      if e.Some? { return; }
      todo := todo - {jobName};
    }
    var cycle := DetectCycles(c);
    return if cycle.Some? then Some(CycleDetected(cycle.value)) else None;
  }
}
