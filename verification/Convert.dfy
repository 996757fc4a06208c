/** From a configuration to a runtime pipeline, and through the wire format to the server and back
    (internal/core/convert.go, internal/cli/convert.go, internal/server/convert.go). */
module Convert {
  import opened Names
  import opened Graphs
  import opened Model
  import opened Scheduler
  import opened Validator

  // ---------------------------------------------------------- env layering

  /** The env in which the entries of `override` win. */
  function Layered(base: Env, override: Env): (e: Env)
    ensures forall k :: k in e <==> k in base || k in override
    ensures forall k :: k in e ==> e[k] == if k in override then override[k] else base[k]
  {
    base + override
  }

  /** Copies every entry, in whatever order the map is walked. */
  method CopyInto<K(==), V>(into: map<K, V>, from: map<K, V>) returns (merged: map<K, V>)
    ensures merged == into + from
  {
    merged := into;
    var todo := from.Keys;
    while todo != {}
      invariant todo <= from.Keys
      invariant forall k :: k in merged <==> k in into || (k in from && k !in todo)
      invariant forall k :: k in merged ==> merged[k] == if k in from && k !in todo then from[k] else into[k]
      decreases |todo|
    {
      var k :| k in todo;
      merged := merged[k := from[k]];
      todo := todo - {k};
    }
  }

  method MergeEnv(base: Env, override: Env) returns (merged: Env)
    ensures merged == Layered(base, override)
  {
    merged := CopyInto(map[], base);
    assert merged == base;
    merged := CopyInto(merged, override);
  }

  // --------------------------------------------------- NewPipelineFromConfig

  function BuiltStep(jobEnv: Env, d: StepDef): Step {
    Step(d.name, d.run, Layered(jobEnv, d.env), Pending)
  }

  function BuiltSteps(jobEnv: Env, ds: seq<StepDef>): (r: seq<Step>)
    ensures |r| == |ds| && forall i :: 0 <= i < |ds| ==> r[i] == BuiltStep(jobEnv, ds[i])
  {
    seq(|ds|, i requires 0 <= i < |ds| => BuiltStep(jobEnv, ds[i]))
  }

  function BuiltJob(env: Env, name: Name, d: JobDef): Job {
    Job(name, d.image, BuiltSteps(Layered(env, d.env), d.steps), d.dependsOn, Layered(env, d.env), Pending)
  }

  /** `p` is the pipeline of `c`: one job per map key, in name order, with the env layers merged. */
  ghost predicate BuiltFrom(c: PipelineDef, p: Pipeline) {
    && p.name == c.name && p.env == c.env && p.status == Pending
    && Sorted(NamesOf(p.jobs)) && Distinct(NamesOf(p.jobs))
    && (forall n :: n in NamesOf(p.jobs) <==> n in c.jobs)
    && (forall i :: 0 <= i < |p.jobs| ==>
             p.jobs[i].name in c.jobs && p.jobs[i] == BuiltJob(c.env, p.jobs[i].name, c.jobs[p.jobs[i].name]))
  }

  /** Field by field, what a built job takes over from its definition. */
  ghost predicate TakesOver(env: Env, d: JobDef, job: Job) {
    && job.image == d.image && job.dependsOn == d.dependsOn && job.status == Pending
    && job.env == Layered(env, d.env)
    && |job.steps| == |d.steps|
    && forall i :: 0 <= i < |d.steps| ==>
         && job.steps[i].name == d.steps[i].name && job.steps[i].command == d.steps[i].run
         && job.steps[i].env == Layered(job.env, d.steps[i].env) && job.steps[i].status == Pending
  }

  /** The pipeline of a configuration: its jobs in strictly ascending name order, with their fields. */
  lemma BuiltFieldByField(c: PipelineDef, p: Pipeline)
    requires BuiltFrom(c, p)
    ensures p.name == c.name && p.env == c.env && p.status == Pending
    ensures Ascending(NamesOf(p.jobs)) && forall n :: n in NamesOf(p.jobs) <==> n in c.jobs
    ensures forall i :: 0 <= i < |p.jobs| ==>
      p.jobs[i].name in c.jobs && TakesOver(c.env, c.jobs[p.jobs[i].name], p.jobs[i])
  {
    hide Sorted, Distinct, Ascending, Layered;
    SortedIsAscending(NamesOf(p.jobs));
  }

  method BuildSteps(jobEnv: Env, ds: seq<StepDef>) returns (steps: seq<Step>)
    ensures steps == BuiltSteps(jobEnv, ds)
  {
    steps := [];
    for i := 0 to |ds|
      invariant |steps| == i && forall k :: 0 <= k < i ==> steps[k] == BuiltStep(jobEnv, ds[k])
    {
      var stepEnv := MergeEnv(jobEnv, ds[i].env);
      steps := steps + [Step(ds[i].name, ds[i].run, stepEnv, Pending)];
    }
  }

  method SortedJobNames(c: PipelineDef) returns (jobNames: seq<Name>)
    ensures Sorted(jobNames) && Distinct(jobNames) && forall n :: n in jobNames <==> n in c.jobs
  {
    hide Sorted;
    jobNames := [];
    var todo := c.jobs.Keys;
    while todo != {}
      invariant todo <= c.jobs.Keys && Distinct(jobNames)
      invariant forall n :: n in jobNames <==> n in c.jobs && n !in todo
      decreases |todo|
    {
      var name :| name in todo;
      jobNames := jobNames + [name];
      todo := todo - {name};
    }
    DistinctByMultiset(jobNames, SortStrings(jobNames));
    jobNames := SortStrings(jobNames);
  }

  method NewPipelineFromConfig(c: PipelineDef, id: string) returns (p: Pipeline)
    ensures BuiltFrom(c, p) && p.id == id
    ensures Ascending(NamesOf(p.jobs)) && forall n :: n in NamesOf(p.jobs) <==> n in c.jobs
    ensures forall i :: 0 <= i < |p.jobs| ==>
      p.jobs[i].name in c.jobs && TakesOver(c.env, c.jobs[p.jobs[i].name], p.jobs[i])
  {
    hide Sorted, Distinct, BuiltSteps, Layered, Ascending, TakesOver;
    var jobNames := SortedJobNames(c);
    var jobs: seq<Job> := [];
    for i := 0 to |jobNames|
      invariant |jobs| == i
      invariant forall k :: 0 <= k < i ==>
        jobNames[k] in c.jobs && jobs[k] == BuiltJob(c.env, jobNames[k], c.jobs[jobNames[k]])
    {
      assert jobNames[i] in jobNames;
      var jobDef := c.jobs[jobNames[i]];
      var jobEnv := MergeEnv(c.env, jobDef.env);
      var steps := BuildSteps(jobEnv, jobDef.steps);
      jobs := jobs + [Job(jobNames[i], jobDef.image, steps, jobDef.dependsOn, jobEnv, Pending)];
    }
    p := Pipeline(id, c.name, jobs, c.env, Pending);
    assert NamesOf(p.jobs) == jobNames;
    BuiltFieldByField(c, p);
  }

  /** A configuration determines its pipeline, whatever the order in which its map is walked. */
  lemma BuildIsUnique(c: PipelineDef, p: Pipeline, q: Pipeline)
    requires BuiltFrom(c, p) && BuiltFrom(c, q) && p.id == q.id
    ensures p == q
  {
    hide Sorted, Distinct, BuiltJob;
    SortedUnique(NamesOf(p.jobs), NamesOf(q.jobs));
    forall i | 0 <= i < |p.jobs| ensures p.jobs[i] == q.jobs[i] {
      assert NamesOf(p.jobs)[i] == NamesOf(q.jobs)[i];
    }
  }

  /** Lookup in a step's env is step over job over pipeline. */
  lemma EnvLookup(c: PipelineDef, p: Pipeline, i: nat, s: nat, k: string)
    requires BuiltFrom(c, p) && i < |p.jobs| && s < |p.jobs[i].steps|
    ensures p.jobs[i].name in c.jobs && s < |c.jobs[p.jobs[i].name].steps|
    ensures var job := c.jobs[p.jobs[i].name]; var own := job.steps[s].env; var env := p.jobs[i].steps[s].env;
      && (k in env <==> k in own || k in job.env || k in c.env)
      && (k in env ==> env[k] == if k in own then own[k] else if k in job.env then job.env[k] else c.env[k])
  {
    hide Sorted, Distinct, NamesOf;
    var job := c.jobs[p.jobs[i].name];
    assert p.jobs[i].steps[s] == BuiltStep(Layered(c.env, job.env), job.steps[s]);
  }

  // ------------------------------------------------------------- wire format

  datatype StepDefinition = StepDefinition(name: string, run: string, env: Env)
  datatype JobDefinition = JobDefinition(image: string, dependsOn: seq<Name>, env: Env, steps: seq<StepDefinition>)
  datatype PipelineDefinition = PipelineDefinition(name: string, env: Env, jobs: map<Name, JobDefinition>)

  function WireSteps(steps: seq<Step>): (r: seq<StepDefinition>)
    ensures |r| == |steps| && forall i :: 0 <= i < |steps| ==>
      r[i] == StepDefinition(steps[i].name, steps[i].command, steps[i].env)
  {
    seq(|steps|, i requires 0 <= i < |steps| => StepDefinition(steps[i].name, steps[i].command, steps[i].env))
  }

  function WireJob(job: Job): JobDefinition {
    JobDefinition(job.image, job.dependsOn, job.env, WireSteps(job.steps))
  }

  /** The job map of the request; a later job of the same name replaces an earlier one. */
  function WireJobs(jobs: seq<Job>): map<Name, JobDefinition> {
    if jobs == [] then map[]
    else WireJobs(jobs[..|jobs| - 1])[jobs[|jobs| - 1].name := WireJob(jobs[|jobs| - 1])]
  }

  function RequestOf(p: Pipeline): PipelineDefinition {
    PipelineDefinition(p.name, p.env, WireJobs(p.jobs))
  }

  /** Field by field, what a definition on the wire says of a job. */
  ghost predicate Sends(job: Job, d: JobDefinition) {
    && d.image == job.image && d.dependsOn == job.dependsOn && d.env == job.env && |d.steps| == |job.steps|
    && forall i :: 0 <= i < |job.steps| ==>
         d.steps[i].name == job.steps[i].name && d.steps[i].run == job.steps[i].command
         && d.steps[i].env == job.steps[i].env
  }

  lemma SentFieldByField(p: Pipeline)
    ensures forall n :: n in RequestOf(p).jobs <==> n in NamesOf(p.jobs)
    ensures UniqueNames(p.jobs) ==> forall i :: 0 <= i < |p.jobs| ==>
      Sends(p.jobs[i], RequestOf(p).jobs[p.jobs[i].name])
  {
    hide UniqueNames, WireJobs;
    WireKeys(p.jobs);
    assert forall i :: 0 <= i < |p.jobs| ==> NamesOf(p.jobs)[i] == p.jobs[i].name;
    if UniqueNames(p.jobs) {
      forall i | 0 <= i < |p.jobs| ensures Sends(p.jobs[i], RequestOf(p).jobs[p.jobs[i].name]) {
        WireAt(p.jobs, i);
      }
    }
  }

  method PipelineToProtoRequest(p: Pipeline) returns (r: PipelineDefinition)
    ensures r == RequestOf(p) && r.name == p.name && r.env == p.env
    ensures forall n :: n in r.jobs <==> n in NamesOf(p.jobs)
    ensures UniqueNames(p.jobs) ==> forall i :: 0 <= i < |p.jobs| ==> Sends(p.jobs[i], r.jobs[p.jobs[i].name])
  {
    var jobs: map<Name, JobDefinition> := map[];
    for i := 0 to |p.jobs|
      invariant jobs == WireJobs(p.jobs[..i])
    {
      var job := p.jobs[i];
      var steps: seq<StepDefinition> := [];
      for k := 0 to |job.steps|
        invariant |steps| == k && forall m :: 0 <= m < k ==> steps[m] == WireSteps(job.steps)[m]
      {
        steps := steps + [StepDefinition(job.steps[k].name, job.steps[k].command, job.steps[k].env)];
      }
      assert steps == WireSteps(job.steps);
      jobs := jobs[job.name := JobDefinition(job.image, job.dependsOn, job.env, steps)];
      assert p.jobs[..i + 1][..i] == p.jobs[..i];
    }
    assert p.jobs[..|p.jobs|] == p.jobs;
    r := PipelineDefinition(p.name, p.env, jobs);
    SentFieldByField(p);
  }

  function CoreSteps(steps: seq<StepDefinition>): (r: seq<StepDef>)
    ensures |r| == |steps| && forall i :: 0 <= i < |steps| ==>
      r[i] == StepDef(steps[i].name, steps[i].run, steps[i].env)
  {
    seq(|steps|, i requires 0 <= i < |steps| => StepDef(steps[i].name, steps[i].run, steps[i].env))
  }

  function CoreJob(d: JobDefinition): JobDef {
    JobDef(d.image, d.dependsOn, d.env, CoreSteps(d.steps))
  }

  function ConfigFrom(pb: PipelineDefinition): PipelineDef {
    PipelineDef(pb.name, pb.env, map n | n in pb.jobs :: CoreJob(pb.jobs[n]))
  }

  /** Field by field, what a configuration takes from a definition on the wire. */
  ghost predicate Receives(d: JobDefinition, job: JobDef) {
    && job.image == d.image && job.dependsOn == d.dependsOn && job.env == d.env && |job.steps| == |d.steps|
    && forall i :: 0 <= i < |d.steps| ==>
         job.steps[i].name == d.steps[i].name && job.steps[i].run == d.steps[i].run
         && job.steps[i].env == d.steps[i].env
  }

  /** A missing definition stays missing; otherwise the configuration has the same jobs. */
  method PipelineDefFromProto(pb: Option<PipelineDefinition>) returns (c: Option<PipelineDef>)
    ensures c == if pb.Some? then Some(ConfigFrom(pb.value)) else None
    ensures pb.Some? ==> c.value.name == pb.value.name && c.value.env == pb.value.env
    ensures pb.Some? ==> c.value.jobs.Keys == pb.value.jobs.Keys
    ensures pb.Some? ==> forall n :: n in c.value.jobs ==> Receives(pb.value.jobs[n], c.value.jobs[n])
  {
    if pb.None? { return None; }
    var jobs: map<Name, JobDef> := map[];
    var todo := pb.value.jobs.Keys;
    while todo != {}
      invariant todo <= pb.value.jobs.Keys
      invariant jobs == map n | n in pb.value.jobs && n !in todo :: CoreJob(pb.value.jobs[n])
      decreases |todo|
    {
      var name :| name in todo;
      var jd := pb.value.jobs[name];
      var steps: seq<StepDef> := [];
      for k := 0 to |jd.steps|
        invariant |steps| == k && forall m :: 0 <= m < k ==> steps[m] == CoreSteps(jd.steps)[m]
      {
        steps := steps + [StepDef(jd.steps[k].name, jd.steps[k].run, jd.steps[k].env)];
      }
      assert steps == CoreSteps(jd.steps);
      jobs := jobs[name := JobDef(jd.image, jd.dependsOn, jd.env, steps)];
      todo := todo - {name};
    }
    assert jobs == ConfigFrom(pb.value).jobs;
    return Some(PipelineDef(pb.value.name, pb.value.env, jobs));
  }

  // -------------------------------------------------------------- round trip

  lemma {:induction false} WireKeys(jobs: seq<Job>)
    ensures forall n :: n in WireJobs(jobs) <==> n in NamesOf(jobs)
  {
    if jobs == [] {
    } else {
      var k := |jobs| - 1;
      WireKeys(jobs[..k]);
      assert NamesOf(jobs) == NamesOf(jobs[..k]) + [jobs[k].name];
    }
  }

  lemma {:induction false} WireAt(jobs: seq<Job>, i: nat)
    requires UniqueNames(jobs) && i < |jobs|
    ensures jobs[i].name in WireJobs(jobs) && WireJobs(jobs)[jobs[i].name] == WireJob(jobs[i])
  {
    hide WireJob;
    if i == |jobs| - 1 {
    } else {
      WireAt(jobs[..|jobs| - 1], i);
    }
  }

  lemma DistinctNames(jobs: seq<Job>)
    requires Distinct(NamesOf(jobs))
    ensures UniqueNames(jobs)
  {
    forall i, j | 0 <= i < j < |jobs| ensures jobs[i].name != jobs[j].name {
      assert NamesOf(jobs)[i] != NamesOf(jobs)[j];
    }
  }

  /** `over` is already layered on `base`: merging it again changes nothing. */
  predicate Absorbs(base: Env, over: Env) {
    Layered(base, over) == over
  }

  /** Merging is idempotent. */
  lemma LayeredAbsorbs(base: Env, over: Env)
    ensures Absorbs(base, Layered(base, over))
  {
  }

  predicate NormalJob(env: Env, job: Job) {
    && job.status == Pending && Absorbs(env, job.env)
    && forall s :: s in job.steps ==> s.status == Pending && Absorbs(job.env, s.env)
  }

  /** Jobs in strict name order, every env already layered, and everything pending. */
  ghost predicate NormalPipeline(p: Pipeline) {
    && p.status == Pending
    && Sorted(NamesOf(p.jobs)) && Distinct(NamesOf(p.jobs))
    && forall j :: j in p.jobs ==> NormalJob(p.env, j)
  }

  lemma JobRoundTrip(env: Env, job: Job)
    ensures BuiltJob(env, job.name, CoreJob(WireJob(job))) == job <==> NormalJob(env, job)
  {
    var back := BuiltJob(env, job.name, CoreJob(WireJob(job)));
    forall i | 0 <= i < |job.steps|
      ensures back.steps[i]
           == Step(job.steps[i].name, job.steps[i].command, Layered(Layered(env, job.env), job.steps[i].env), Pending)
    {
    }
    if NormalJob(env, job) {
      forall i | 0 <= i < |job.steps| ensures back.steps[i] == job.steps[i] {
        assert job.steps[i] in job.steps;
      }
      assert back.steps == job.steps;
    }
    if back == job {
      forall s | s in job.steps ensures s.status == Pending && Absorbs(job.env, s.env) {
        var i :| 0 <= i < |job.steps| && job.steps[i] == s;
        assert back.steps[i] == s;
      }
    }
  }

  /** The trip to the server and back gives the same pipeline, up to its ID, exactly when the pipeline
      is in normal form. */
  lemma RoundTripExactly(p: Pipeline)
    ensures BuiltFrom(ConfigFrom(RequestOf(p)), p) <==> NormalPipeline(p)
  {
    hide Sorted, Distinct, BuiltJob, CoreJob, WireJob, NormalJob, UniqueNames;
    if Distinct(NamesOf(p.jobs)) {
      var c := ConfigFrom(RequestOf(p));
      DistinctNames(p.jobs);
      WireKeys(p.jobs);
      forall i | 0 <= i < |p.jobs|
        ensures p.jobs[i].name in c.jobs
        ensures p.jobs[i] == BuiltJob(c.env, p.jobs[i].name, c.jobs[p.jobs[i].name]) <==> NormalJob(p.env, p.jobs[i])
      {
        WireAt(p.jobs, i);
        JobRoundTrip(p.env, p.jobs[i]);
      }
      assert forall i :: 0 <= i < |p.jobs| ==> p.jobs[i] in p.jobs;
    }
  }

  /** A pipeline whose job has not been given the pipeline's variables. */
  const UNLAYERED :=
    Pipeline("id", "p", [Job("a", "img", [], [], map[], Pending)], map["K" := "v"], Pending)

  /** An input that does not survive the trip: the job comes back with the pipeline's variables. */
  lemma UnlayeredChanges(q: Pipeline)
    requires BuiltFrom(ConfigFrom(RequestOf(UNLAYERED)), q)
    ensures !NormalPipeline(UNLAYERED) && !BuiltFrom(ConfigFrom(RequestOf(UNLAYERED)), UNLAYERED)
    ensures |q.jobs| == 1 && q.jobs[0].name == "a" && q.jobs[0].env == map["K" := "v"]
  {
    hide BuiltSteps, CoreSteps, WireSteps;
    var p := UNLAYERED;
    assert "K" in Layered(p.env, p.jobs[0].env) && p.jobs[0] in p.jobs;
    RoundTripExactly(p);
    WireKeys(p.jobs);
    WireAt(p.jobs, 0);
    assert NamesOf(p.jobs) == ["a"];
    SortedUnique(NamesOf(q.jobs), ["a"]);
    assert NamesOf(q.jobs)[0] == q.jobs[0].name;
  }

  lemma BuiltJobIsNormal(env: Env, name: Name, d: JobDef)
    ensures NormalJob(env, BuiltJob(env, name, d))
  {
    var job := BuiltJob(env, name, d);
    LayeredAbsorbs(env, d.env);
    forall s | s in job.steps ensures s.status == Pending && Absorbs(job.env, s.env) {
      var i :| 0 <= i < |job.steps| && job.steps[i] == s;
      LayeredAbsorbs(job.env, d.steps[i].env);
    }
  }

  lemma BuiltIsNormal(c: PipelineDef, p: Pipeline)
    requires BuiltFrom(c, p)
    ensures NormalPipeline(p)
  {
    hide Sorted, Distinct, BuiltJob, NormalJob;
    forall j | j in p.jobs ensures NormalJob(p.env, j) {
      var i :| 0 <= i < |p.jobs| && p.jobs[i] == j;
      BuiltJobIsNormal(c.env, j.name, c.jobs[j.name]);
    }
  }

  /** Local and remote agree: the pipeline that the server builds from a client's request is the
      client's pipeline, except for its ID. */
  lemma RoundTrip(c: PipelineDef, p: Pipeline, q: Pipeline)
    requires BuiltFrom(c, p) && BuiltFrom(ConfigFrom(RequestOf(p)), q)
    ensures q == p.(id := q.id)
  {
    hide BuiltFrom, NormalPipeline, ConfigFrom, RequestOf;
    BuiltIsNormal(c, p);
    RoundTripExactly(p);
    IdIsFree(ConfigFrom(RequestOf(p)), p, q.id);
    BuildIsUnique(ConfigFrom(RequestOf(p)), p.(id := q.id), q);
  }

  lemma IdIsFree(c: PipelineDef, p: Pipeline, id: string)
    requires BuiltFrom(c, p)
    ensures BuiltFrom(c, p.(id := id))
  {
    hide Sorted, Distinct, BuiltJob;
  }

  // ---------------------------------------- the validator and the scheduler agree

  lemma BuiltDeps(c: PipelineDef, p: Pipeline, i: nat)
    requires BuiltFrom(c, p) && i < |p.jobs|
    ensures p.jobs[i].name in c.jobs && p.jobs[i].dependsOn == c.jobs[p.jobs[i].name].dependsOn
  {
    hide Sorted, Distinct, BuiltSteps, Layered;
  }

  lemma BuiltNames(c: PipelineDef, p: Pipeline)
    requires BuiltFrom(c, p)
    ensures Distinct(NamesOf(p.jobs)) && forall n :: n in NamesOf(p.jobs) <==> n in c.jobs
  {
    hide Sorted, Distinct, BuiltJob;
  }

  /** The built jobs have the configuration's dependency graph. */
  lemma BuiltGraph(c: PipelineDef, p: Pipeline)
    requires BuiltFrom(c, p)
    ensures UniqueNames(p.jobs) && GraphOf(p.jobs) == DepsOf(c)
  {
    hide BuiltFrom, Distinct, GraphOf, UniqueNames;
    BuiltNames(c, p);
    DistinctNames(p.jobs);
    GraphOfUnique(p.jobs);
    GraphKeys(p.jobs);
    forall n | n in c.jobs ensures n in GraphOf(p.jobs) && GraphOf(p.jobs)[n] == c.jobs[n].dependsOn {
      var i :| 0 <= i < |p.jobs| && p.jobs[i].name == n;
      BuiltDeps(c, p, i);
    }
    assert GraphOf(p.jobs).Keys == c.jobs.Keys;
  }

  /** Two independent algorithms agree: if Validate accepts a configuration then Schedule succeeds on
      the pipeline built from it, and among configurations with sound jobs only then. */
  lemma ValidateImpliesSchedule(c: PipelineDef, p: Pipeline)
    requires BuiltFrom(c, p)
    ensures ValidConfig(c) ==> Known(GraphOf(p.jobs)) && !Cyclic(GraphOf(p.jobs))
    ensures JobsOk(c) && c.name != "" && c.jobs != map[] ==>
      (ValidConfig(c) <==> Known(GraphOf(p.jobs)) && !Cyclic(GraphOf(p.jobs)))
  {
    hide BuiltFrom, GraphOf, Cyclic;
    BuiltGraph(c, p);
    if JobsOk(c) { SoundJobsKnow(c); }
  }

  lemma SoundJobsKnow(c: PipelineDef)
    requires JobsOk(c)
    ensures Known(DepsOf(c))
  {
    hide StepsRun, UniqueStepNames;
    forall n, d | n in DepsOf(c) && d in DepsOf(c)[n] ensures d in DepsOf(c) {
      assert JobOk(c, c.jobs[n]);
    }
  }

  /** What Validate accepted stays accepted after the trip to the server. */
  lemma ValidStaysValid(c: PipelineDef, p: Pipeline)
    requires BuiltFrom(c, p) && ValidConfig(c)
    ensures ValidConfig(ConfigFrom(RequestOf(p)))
  {
    hide Sorted, Distinct, JobOk, Cyclic, BuiltJob, CoreJob, WireJob;
    var c2 := ConfigFrom(RequestOf(p));
    DistinctNames(p.jobs);
    WireKeys(p.jobs);
    SameKeysBack(c, p);
    forall n | n in c2.jobs ensures JobOk(c2, c2.jobs[n]) && c2.jobs[n].dependsOn == c.jobs[n].dependsOn {
      assert n in NamesOf(p.jobs);
      var i :| 0 <= i < |p.jobs| && p.jobs[i].name == n;
      WireAt(p.jobs, i);
      JobStaysOk(c, c2, c.jobs[n], n);
    }
    assert DepsOf(c2) == DepsOf(c);
  }

  lemma SameKeysBack(c: PipelineDef, p: Pipeline)
    requires BuiltFrom(c, p)
    ensures ConfigFrom(RequestOf(p)).jobs.Keys == c.jobs.Keys
  {
    hide Sorted, Distinct, BuiltJob, CoreJob, WireJob;
    WireKeys(p.jobs);
  }

  lemma JobStaysOk(c: PipelineDef, c2: PipelineDef, d: JobDef, n: Name)
    requires JobOk(c, d) && c2.jobs.Keys == c.jobs.Keys
    ensures JobOk(c2, CoreJob(WireJob(BuiltJob(c.env, n, d))))
    ensures CoreJob(WireJob(BuiltJob(c.env, n, d))).dependsOn == d.dependsOn
  {
    hide Layered;
    var d2 := CoreJob(WireJob(BuiltJob(c.env, n, d)));
    forall i | 0 <= i < |d.steps| ensures d2.steps[i].name == d.steps[i].name && d2.steps[i].run == d.steps[i].run {
    }
  }
}
