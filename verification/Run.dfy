/** The local and the remote path of `seedee run`, end to end (internal/cli/run.go, the engine side of
    internal/server/handler.go). */
module Run {
  import opened Names
  import opened Graphs
  import opened Model
  import opened Scheduler
  import opened Validator
  import opened Convert
  import opened Engine
  import opened EngineProgress

  /** Load, build, execute. A configuration that Validate accepts never meets the schedule error, and its
      run returns what the runner's answers make of the jobs built from it, or is cancelled. */
  method RunLocal(c: PipelineDef, id: string, setupOk: Name -> bool, outcome: (Name, nat) -> StepOutcome,
                  pick: State -> Label)
    returns (rejected: Option<ConfigError>, p: Option<Pipeline>, result: Option<PipelineResult>)
    ensures rejected.None? <==> ValidConfig(c)
    ensures rejected.Some? ==> Complains(c, rejected.value) && p.None? && result.None?
    ensures rejected.None? ==>
      && p.Some? && BuiltFrom(c, p.value) && p.value.id == id && result.Some?
      && ReturnsAsAnswered(p.value.jobs, setupOk, outcome, result.value)
      && WellFormed(ConfigOf(p.value.jobs, setupOk, outcome))
      && exists states, labels, trace ::
           RanBy(ConfigOf(p.value.jobs, setupOk, outcome), pick, states, labels, result.value, trace)
  {
    hide ValidConfig, Complains, BuiltFrom, RanBy, WellFormed, ReturnsAsAnswered, GraphOf, Cyclic, UniqueNames, Known;
    rejected, p, result := None, None, None;
    rejected := Validate(c);
    if rejected.Some? { return; }
    var pipeline := NewPipelineFromConfig(c, id);
    BuiltGraph(c, pipeline);
    ValidateImpliesSchedule(c, pipeline);
    var res, err, trace := Execute(pipeline.jobs, setupOk, outcome, pick);
    p, result := Some(pipeline), Some(res);
  }

  /** The same through the server: the request is rebuilt and validated again, and what runs there has
      exactly the jobs that the client built. */
  method RunRemote(c: PipelineDef, id: string, serverId: string, setupOk: Name -> bool,
                   outcome: (Name, nat) -> StepOutcome, pick: State -> Label)
    returns (rejected: Option<ConfigError>, p: Option<Pipeline>, result: Option<PipelineResult>)
    ensures rejected.None? <==> ValidConfig(c)
    ensures rejected.Some? ==> Complains(c, rejected.value) && p.None? && result.None?
    ensures rejected.None? ==>
      && p.Some? && BuiltFrom(c, p.value) && p.value.id == serverId && result.Some?
      && ReturnsAsAnswered(p.value.jobs, setupOk, outcome, result.value)
      && WellFormed(ConfigOf(p.value.jobs, setupOk, outcome))
      && exists states, labels, trace ::
           RanBy(ConfigOf(p.value.jobs, setupOk, outcome), pick, states, labels, result.value, trace)
  {
    hide ValidConfig, Complains, BuiltFrom, RanBy, WellFormed, ReturnsAsAnswered, GraphOf, Cyclic, UniqueNames, Known,
         ConfigFrom, RequestOf;
    rejected, p, result := None, None, None;
    rejected := Validate(c);
    if rejected.Some? { return; }
    var sent := NewPipelineFromConfig(c, id);
    var request := PipelineToProtoRequest(sent);
    var received := PipelineDefFromProto(Some(request));
    ValidStaysValid(c, sent);
    rejected, p, result := RunLocal(received.value, serverId, setupOk, outcome, pick);
    if p.Some? {
      RoundTrip(c, sent, p.value);
      IdIsFree(c, sent, p.value.id);
    }
  }
}
