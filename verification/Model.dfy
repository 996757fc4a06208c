/** The pipeline definition as parsed, and the runtime pipeline built from it
    (internal/core/model.go). A nil env map and an empty one behave alike in every
    function modelled here, so both are the empty map. */
module Model {
  import opened Names

  type Env = map<string, string>

  datatype Option<+T> = None | Some(value: T)
  datatype Result<+T, +E> = Ok(value: T) | Err(error: E)

  newtype Byte = x: int | 0 <= x < 256
  type Bytes = seq<Byte>

  datatype StepDef = StepDef(name: string, run: string, env: Env)
  datatype JobDef = JobDef(image: string, dependsOn: seq<Name>, env: Env, steps: seq<StepDef>)
  datatype PipelineDef = PipelineDef(name: string, env: Env, jobs: map<Name, JobDef>)

  datatype Status = Pending | Running | Success | Failed | Skipped | Canceled

  datatype Step = Step(name: string, command: string, env: Env, status: Status)
  datatype Job = Job(name: Name, image: string, steps: seq<Step>, dependsOn: seq<Name>, env: Env, status: Status)
  datatype Pipeline = Pipeline(id: string, name: string, jobs: seq<Job>, env: Env, status: Status)
}
