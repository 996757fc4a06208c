# seedee: pipeline engine, scheduler and progress display

seedee runs CI pipelines: named jobs with ordered steps, joined by `depends_on`. This project models
its core in Dafny and proves what a maintainer relies on.

- `Names`, `Graphs`: name order and sorting, the dependency graph, cycles, rankings, longest chains,
  what a depth-first search keeps, and that a graph of known dependencies has a ranking exactly when it
  has no cycle (`Graphs.RankedIsAcyclic`, `Graphs.AcyclicIsRanked`).
- `Scheduler`: the level-grouped topological sort with its in-degree map, and the coloured search that
  reconstructs a cycle. `Validator`: the configuration checks with their own, second cycle search.
- `Convert`: env layering, the runtime pipeline, the trip through the wire format and back.
- `Engine`, `EngineLocal`, `EngineInvariant`, `EngineSafety`, `EngineTraces`, `EngineConfluence`,
  `EngineCancel`, `EngineProgress`, `EngineVerdict`: one goroutine per job as a transition system with
  arbitrary interleaving and cancellation at any moment. A state holds every goroutine's program counter, the shared maps, the
  done-channels, the wait group and one trace of all events, runner calls and channel closings. The
  runner answers as configured while nothing is cancelled and arbitrarily afterwards; Setup, RunStep
  and Teardown return, and a step writes only while its RunStep is active. `EngineProgress.Execute`
  runs the system under an arbitrary scheduler. `Run`: `seedee run`, local and remote, end to end.
- `LogWriter`: the chunking of step output. `Texts`, `Terminals`, `Progress`, `Rendering`, `Histories`,
  `Display`: the two-zone progress display on a virtual terminal that obeys line feeds, continues full
  rows on the next one and never scrolls. `Histories` says what the record and the drawn lines mean in
  terms of the inputs and of plain text.

Where code and documentation differ, the model follows the code:

- `docs/config.md:93-94` and `docs/architecture.md` say that groups run one after another. Execute
  discards the groups (`internal/core/engine.go:46`); each job waits for its own dependencies. The
  documented behaviour is the specification in `EngineConfluence.RefinesGroups`.
- `docs/config.md:200` shows a validator message `A -> B -> A`. The code does not repeat the closing
  node (`internal/core/config.go:98-110`), except that a self-dependency is listed twice
  (`Validator.ListsCycle`).
- `internal/cli/progress.go:401` speaks of tails for running steps; the code shows every step's tail.

Where a guarantee one would expect does not hold of the code for all inputs, the exact condition is proved,
with an input for which it fails:

- After an event an exact screen is still exact if and only if the event is not a PipelineStarted arriving
  while a bottom zone is shown, no line of the zone that is cleared takes more than one row, and nothing
  printed holds a control character other than a line feed (`Display.ProgressHandler.HandleEvent`). Step
  log lines are truncated, but job lines are not, and names may hold line feeds
  (`Display.HeaderOntoZone`, `Display.WideName`). `Display.ProgressHandler.HandleAll` gives a condition
  on the inputs alone under which the screen stays exact.
- Schedule returns the exact levels if and only if the job names are distinct, every dependency is known
  and there is no cycle (`Scheduler.Schedule`, `Scheduler.RepeatedName`).
- All complete uncancelled runs of a pipeline return the same result if and only if the jobs that fail
  either all fail in Setup or all in a step; the job results and the verdict always agree
  (`EngineVerdict.AgreeExactly`, `EngineVerdict.ErrorDiffers`).
- A pipeline survives the trip to the server unchanged, up to its ID, if and only if it is in normal form
  (`Convert.RoundTripExactly`, `Convert.UnlayeredChanges`); every built pipeline is.

## Model

| member | source | states |
|---|---|---|
| Scheduler.Schedule | internal/core/scheduler.go:17-98 | returns the exact levels, each in strictly ascending lexicographic order, precisely when names are distinct, dependencies known and the graph acyclic; otherwise the error is the first unknown dependency in pipeline order, or, under distinct names, a real closed path and never the message without a path; with repeated names a success lists some job twice in a group |
| Scheduler.RepeatedName | internal/core/scheduler.go:55-78 | two jobs of one name, without any dependency, do not get their levels |
| Scheduler.CheckKnown | internal/core/scheduler.go:24-31 | for any job list, finds nothing exactly when every listed dependency is a job, and otherwise the first unknown entry of the first job that has one |
| Scheduler.RoundKeepsKahn | internal/core/scheduler.go:55-95 | one round adds exactly the jobs whose longest chain has as many edges as there are groups, and the in-degree map goes on counting unscheduled dependency entries, repetitions included |
| Scheduler.InDegrees | internal/core/scheduler.go:33-48 | for any job list, the map has every job and starts at the number of entries of all jobs of that name, however the entries repeat and in whatever order keys first appear |
| Scheduler.CollectReady | internal/core/scheduler.go:56-70 | exactly the unscheduled names with in-degree zero, in name order, each as often as jobs have it |
| Scheduler.TakeGroup | internal/core/scheduler.go:72-78 | the group holds the ready jobs in that order, and exactly they leave the map |
| Scheduler.Relax | internal/core/scheduler.go:80-92 | each remaining count drops by its entries that were just scheduled, an entry counting once for each time its job is listed |
| Scheduler.StuckIsCyclic | internal/core/scheduler.go:64-67 | when no job is ready but some are left, every one of them waits for another and the graph is cyclic, so findCycle cannot fall through |
| Scheduler.CycleError | internal/core/scheduler.go:64-67 | a round without a ready job ends in what the search in name order reports, which is a real cycle if names are distinct |
| Scheduler.FindCycle | internal/core/scheduler.go:102-176 | returns a closed path along depends_on edges with no other repetition exactly when there is a cycle; the fallback is returned exactly when there is none |
| Scheduler.CycleFinder.Dfs | internal/core/scheduler.go:128-153 | without a find, every node entered is finished after all its dependencies and the stack is as before; with one, the parent map closes a cycle at the returned node |
| Scheduler.CycleFinder.Reconstruct | internal/core/scheduler.go:158-169 | following the parents terminates and, reversed, gives the cycle in forward order |
| Scheduler.LevelsPartition | internal/core/scheduler.go:9-16 | no job is in two groups, and no two jobs of a group depend on each other |
| Scheduler.FewestGroups | internal/core/scheduler.go:50-97 | every layering puts each job at its group index or above and needs at least as many layers |
| Scheduler.PermutationInvariance | internal/core/scheduler.go:55-97 | reordering the jobs does not change the groups |
| Scheduler.CycleReportInvariance | internal/core/scheduler.go:121-135 | the reported cycle depends only on which job depends on which: reordering jobs, or reordering or repeating entries, does not change it, because names and dependencies are visited in name order |
| Scheduler.LevelsAreUnique | internal/core/scheduler.go:55-97 | the groups depend only on which job depends on which, not on the order or repetition of entries |
| Names.ReverseSlice | internal/core/scheduler.go:166-169 | the two-index swap loop reverses the path |
| Names.AtMostIsLexicographic | internal/core/scheduler.go:70 | the order by which jobs are sorted: a prefix comes first, otherwise the smaller character where two names first differ |
| Validator.DetectCycles | internal/core/config.go:79-133 | for every map order, reports nodes exactly when the graph is cyclic; they are at least two, each depends on the next and the last on the first, and none is repeated unless a self-dependency is listed as its job twice |
| Validator.CycleDetector.Dfs | internal/core/config.go:92-123 | without a report, the job is finished after all its dependencies and the stack is as before; a report lists a cycle |
| Validator.CycleDetector.BuildCycle | internal/core/config.go:96-110 | the report is the stack above the dependency, from the bottom up, and then the dependency; for a self-dependency the job twice |
| Validator.Validate | internal/core/config.go:33-76 | accepts exactly the valid configurations in every map order; a rejection is the pipeline's own complaint, or the first complaint about some job in the fixed check order, or a cycle if all jobs are sound |
| Validator.CheckSteps | internal/core/config.go:52-63 | accepts exactly the step lists with run commands and without repeated non-empty names, and otherwise reports the first bad step, a missing run command before a repeated name |
| Validator.CheckJob | internal/core/config.go:43-69 | reports the first complaint about a job: image, steps, each step in turn, then the first unknown dependency |
| Validator.ComplaintIsUnique | internal/core/config.go:43-69 | there is only one first complaint about a job, so only the map order of the jobs is left open |
| Convert.ValidateImpliesSchedule | internal/core/config.go:33-76 | the two cycle searches agree: an accepted configuration always schedules, and among sound jobs only an acceptable one does |
| Convert.NewPipelineFromConfig | internal/core/convert.go:11-63 | one job per map key in strictly ascending lexicographic order, taking over image, dependencies, step names and commands, with the merged env layers, for every map order |
| Convert.BuildIsUnique | internal/core/convert.go:14-19 | the pipeline is determined by the configuration and the ID |
| Convert.MergeEnv | internal/core/convert.go:67-76 | the union of the two maps in which the override wins, for every map order |
| Convert.EnvLookup | internal/core/convert.go:30-43 | looking a variable up in a step's env is step over job over pipeline |
| Convert.PipelineToProtoRequest | internal/cli/convert.go:11-37 | the request has the names of the jobs and, field by field, each job's image, dependencies, merged env, step names and commands in order |
| Convert.PipelineDefFromProto | internal/server/convert.go:61-89 | nothing for a missing definition, otherwise the configuration with the same jobs, field by field |
| Convert.RoundTrip | internal/server/convert.go:61-89 | what the server builds from the client's request is the client's pipeline except for its ID |
| Convert.RoundTripExactly | internal/cli/convert.go:11-37 | any pipeline survives the trip exactly when its jobs are in strict name order, its env layers are absorbed and all is pending |
| Convert.UnlayeredChanges | internal/cli/convert.go:11-37 | a pipeline whose job lacks the pipeline's variables comes back with them |
| Convert.ValidStaysValid | internal/server/handler.go:53-57 | a configuration accepted locally is accepted again by the server |
| EngineInvariant.InvNext | internal/core/engine.go:86-224 | every step of every goroutine, of Execute and of the context keeps the invariant of the whole engine |
| EngineInvariant.InvReachable | internal/core/engine.go:86-224 | the invariant holds in every reachable state |
| EngineLocal.LocalStep | internal/core/engine.go:91-444 | one step keeps what holds inside a goroutine and extends its exact script of events and calls by what it emits |
| EngineInvariant.LookupDecides | internal/core/engine.go:127-136 | a hit in failedJobs is a failed or skipped dependency, and a miss means that all dependencies succeeded |
| EngineInvariant.ClearsDeps | internal/core/engine.go:113-125 | if the context check after the waits passes, no dependency was canceled, because cancellation never reverts |
| EngineSafety.DependencySafety | internal/core/engine.go:95-164 | whenever a job has entered executeJob, each transitive dependency is finished with Success, under any interleaving and cancellation |
| EngineSafety.HappensBefore | internal/core/engine.go:91-174 | every act of an executing job comes after the JobFinished, the Teardown and the channel close of each transitive dependency |
| EngineSafety.RootCause | internal/core/engine.go:127-162 | every skipped job of an acyclic pipeline has a transitive dependency that failed |
| EngineSafety.VerdictMeaning | internal/core/engine.go:181-197 | if the final check finds nothing cancelled, no job is Canceled and the pipeline is Success exactly when every job is, although only Failed is looked for |
| EngineCancel.CanceledVerdict | internal/core/engine.go:186-188 | a pipeline cancelled before the final check ends as Canceled, even if all its jobs succeeded |
| EngineCancel.CanceledExactly | internal/core/engine.go:186-188 | a complete run ends as Canceled, with an error, exactly when the context was cancelled before the final check |
| EngineCancel.CancellationStopsWork | internal/core/engine.go:113-125 | however a run goes on after a cancellation, a job starts only if it had passed its context check, and starts at most the one step whose check it had passed |
| EngineSafety.FailedPipelineError | internal/core/engine.go:190-195 | a Failed pipeline carries the error of some failed job, which is non-nil exactly if that job's Setup fails |
| EngineSafety.ResultsConserved | internal/core/engine.go:202-208 | one result per job in pipeline order; step results are successes then at most one failure or interruption and match the returned calls; later steps stay pending; past Setup a job is Success exactly when all its steps are |
| EngineSafety.StatusInFlight | internal/core/engine.go:236-330 | while a job executes its status is Running, and so is that of the step it is in |
| EngineSafety.NoPanic | internal/core/engine.go:92-93 | no channel is closed twice, the wait group never goes below zero, and when it is zero every goroutine has closed its channel and gone |
| EngineTraces.EventGrammar | internal/core/engine.go:236-444 | the events of an ended job are none, one JobSkipped, or JobStarted, a block per called step in order, JobFinished; all called steps but the last exited with 0 |
| EngineTraces.ActsInOrder | internal/core/engine.go:236-444 | the order of everything a job did: every RunStep directly after its StepStarted; after a failed Setup the Teardown before JobFinished, otherwise after it; the close last |
| EngineTraces.LogsAreWrites | internal/core/engine.go:311-330 | the StepLog events of a step carry exactly what its RunStep wrote in that run, in order |
| EngineTraces.RunnerBracketing | internal/core/engine.go:250-288 | the runner sees nothing, or one Setup, RunStep for a prefix of the steps in order, one Teardown, on every path |
| EngineTraces.ClosedOnce | internal/core/engine.go:93 | each done-channel is closed exactly once, as the last act of its goroutine |
| EngineTraces.PipelineBrackets | internal/core/engine.go:38-43 | a complete trace starts with PipelineStarted, ends with PipelineFinished carrying the verdict, and has only job acts in between |
| EngineConfluence.RunMeetsSpec | internal/core/engine.go:86-176 | in every complete uncancelled run each job's result, steps included, is the one of the recursive specification |
| EngineConfluence.SpecIsUnique | internal/core/engine.go:127-164 | on an acyclic graph that specification has one solution |
| EngineConfluence.Confluence | internal/core/engine.go:86-208 | two complete uncancelled runs return the same results and the same verdict, however they interleaved |
| EngineConfluence.RefinesGroups | docs/config.md:93-94 | every complete uncancelled run returns what running Schedule's groups one after another gives |
| EngineConfluence.RunIsSpecified | internal/core/engine.go:181-208 | what a complete uncancelled run returns is the specified result: every job's in pipeline order, Success without error if all succeeded, else Failed with the error of a failed job |
| EngineVerdict.AnyFailedCanBePicked | internal/core/engine.go:190-195 | whichever job failed, some run that differs in nothing else returns its error |
| EngineVerdict.AgreeExactly | internal/core/engine.go:190-195 | all complete uncancelled runs return the same result, error included, exactly when the jobs that fail all fail in Setup or all in a step |
| EngineVerdict.ErrorDiffers | internal/core/engine.go:190-195 | two independent jobs, one failing in Setup and one in its step: two runs return different errors |
| EngineProgress.Progress | internal/core/engine.go:95-179 | until Execute returns, every reachable state of an acyclic pipeline has a step that does not need cancellation |
| EngineProgress.EveryStepDescends | internal/core/engine.go:86-179 | every step lowers a whole-system measure, so no run is infinite |
| EngineVerdict.Completes | internal/core/engine.go:86-224 | from every reachable state a run can be completed without cancelling it |
| EngineProgress.Execute | internal/core/engine.go:34-233 | terminates under every scheduler and follows its proposals; runs nothing exactly when Schedule rejects; a job reported Success has one passing result for each of its steps; unless cancelled in time, a job is skipped exactly when a dependency did not succeed, and otherwise fails in Setup or ends with the runner's answers up to the first failure; Canceled exactly when cancelled before the final check |
| EngineProgress.ConfigOfJobs | internal/core/engine.go:283-293 | the engine runs the given jobs in order, with their dependencies, all their steps, and the runner's answers |
| Run.RunLocal | internal/cli/run.go:25-43 | rejects exactly the invalid configurations; an accepted one is executed, never meets the schedule error, and returns what Execute promises of the jobs built from it |
| Run.RunRemote | internal/cli/run.go:132-143 | the same through the server, which runs exactly the jobs that the client built |
| LogWriter.EventLogAdapter.Write | internal/core/engine.go:461-492 | the accepted chunks are exactly the first n bytes; n is everything unless the handler refused a chunk; chunks have 1 to 65536 bytes and only the last may be short |
| LogWriter.CutIsUnique | internal/core/engine.go:446-449 | there is only one such way to cut a message |
| Progress.TruncateANSI | internal/cli/progress.go:567-590 | read as glyphs and escape sequences that end with their first letter, the text is cut before the first glyph for which no column is left, keeping all sequences before it |
| Progress.TruncatesAtPiece | internal/cli/progress.go:574-588 | however a text is read as pieces, that is where it is cut |
| Progress.Parse | internal/cli/progress.go:574-588 | every text can be read as such pieces, perhaps with an open escape sequence at its end |
| Progress.LinesRestore | internal/cli/progress.go:233-235 | the log lines joined by newlines are the data up to newlines at its end |
| Progress.KeysDiffer | internal/cli/progress.go:119 | steps of different jobs never share a key unless a job's name holds a slash |
| Progress.KeysCollide | internal/cli/progress.go:119 | with a slash in a job's name they may |
| Progress.TruncatedIsLongest | internal/cli/progress.go:565-590 | truncation keeps the longest prefix whose visible width fits |
| Display.ProgressHandler.HandleEvent | internal/cli/progress.go:122-255 | records status, start, duration and error as the event says; prints the quoted header; a job that finishes is promoted at once with a tick, or a cross and its error, and its name; static lines only grow; after a redraw the bottom zone is a full rendering; an exact screen stays exact precisely when no header is printed below a shown zone, every line of a cleared zone took one row, and no control character but line feeds is printed |
| Display.ProgressHandler.HandleAll | internal/cli/run.go:174-186 | over events, ticks and dependency lists in any order, static lines are never rewritten and no job is promoted twice; with tidy texts that fit, and PipelineStarted before anything is drawn, the screen stays exact |
| Display.HeaderOntoZone | internal/cli/progress.go:137-141 | a job is shown and then PipelineStarted arrives: the screen, exact before, is wrong |
| Display.WideName | internal/cli/progress.go:412-415 | a job whose name holds a line feed or is as wide as the screen is shown: after the next event the screen is wrong |
| Display.ProgressHandler.RedrawBottomZone | internal/cli/progress.go:361-439 | replaces exactly the last bottomLines rows by the newly promoted jobs and a fresh zone, and touches no row above |
| Display.ProgressHandler.PromoteFinished | internal/cli/progress.go:367-382 | prints each finished job not printed before, in display order, and nothing else |
| Display.ProgressHandler.PrintStaticJobLine | internal/cli/progress.go:443-481 | appends the job's static lines, with the failed steps' tails for a failed job |
| Display.ProgressHandler.BuildBottom | internal/cli/progress.go:384-432 | the loops collect the rendering of all active jobs, with the last five lines of each step of a running one |
| Display.ProgressHandler.Note | internal/cli/progress.go:126-247 | each event changes the record as its case says and keeps the orders free of repetition |
| Display.ProgressHandler.ClearBottomZone | internal/cli/progress.go:344-356 | the cursor-up and erase sequence removes exactly the last bottomLines rows and leaves the cursor where they began |
| Display.ProgressHandler.Tick | internal/cli/progress.go:530-537 | the periodic redraw promotes and draws as an event does, under the same exact condition, and does nothing without a running job |
| Display.ProgressHandler.SetJobDependsOn | internal/cli/progress.go:259-272 | records the list, adds an unknown job as pending, and draws nothing |
| Histories.JobAsLastTold | internal/cli/progress.go:150-193 | after any inputs a job's status, start, duration and error are those of the last event about it |
| Histories.KnownJobs | internal/cli/progress.go:150-193 | the jobs on record are those that a JobStarted, a JobSkipped or a dependency list has named |
| Histories.DepsAsLastSet | internal/cli/progress.go:259-272 | a job waits for the last list recorded for it, which JobSkipped empties and JobStarted keeps |
| Histories.StepAsLastTold | internal/cli/progress.go:192-225 | a step's status is that of its last StepStarted or StepFinished |
| Histories.OrdersGrow | internal/cli/progress.go:160-163 | jobs and steps keep the order in which they came up, and the display is finished exactly when some PipelineFinished came |
| Histories.StaysWellNamed | internal/cli/progress.go:150-247 | every record carries the name under which it is kept |
| Histories.PromotedExactly | internal/cli/progress.go:370-382 | after a redraw exactly the jobs promoted before and the jobs with a final status are promoted |
| Histories.FinishIsShown | internal/cli/progress.go:443-481 | a finished job's line has its mark, its name, and the error if it failed |
| Histories.FailedTailsHold | internal/cli/progress.go:463-471 | below a failed job are exactly the kept lines of its failed steps |
| Histories.ZoneTellsJob | internal/cli/progress.go:390-431 | a job is in the zone exactly while it has no final status, and its line tells its running time or for whom it waits |
| Histories.TailsHold | internal/cli/progress.go:396-416 | below a running job are exactly the last five lines of each of its steps |
| Histories.WaitingIsFilter | internal/cli/progress.go:484-497 | waited for are exactly the listed dependencies without a final status, in their order |
| Rendering.PromotedOnce | internal/cli/progress.go:376-381 | a promoted job is never promoted again, by an event or a tick, even if it starts anew |
| Rendering.NoJobIsLost | internal/cli/progress.go:370-392 | after a redraw a job that is no longer active has been promoted |
| Histories.KeptLines | internal/cli/progress.go:192-241 | the kept lines are the last ten of everything logged since the step's StepStarted, although every event truncates and whatever comes in between |
| Rendering.ZoneFits | internal/cli/progress.go:384-432 | if names, dependency lists and durations are clean and fit the screen, every zone line takes one row; log lines fit because they are split and truncated |
| Rendering.TidyAfter | internal/cli/progress.go:126-247 | tidy inputs keep such a record |
| Texts.RowCount | internal/cli/progress.go:412-415 | lines take as many rows as the handler counts exactly when each fits on a row and holds no line feed |
| Texts.QuotedClean | internal/cli/progress.go:139-140 | the quoted pipeline name has no control character, whatever the name |
| Texts.QuotedReads | internal/cli/progress.go:139-140 | the quoted name is a string literal for the name: within quotes, one code for each character, in order |
| Texts.SplitJoins | internal/cli/progress.go:235-237 | splitting a log text at newlines loses nothing |

## Left out

- Engine.JobStep: goroutine bodies are labelled transitions over a State value instead of methods that update objects, because steps of different goroutines interleave; the entries of failedJobs, jobResults and doneCh sit in their job's record.
- EngineProgress.Execute: requires distinct job names, which NewPipelineFromConfig guarantees; the second of two goroutines of one name would close a closed channel, and that panic is not modelled.
- `sort.Strings` is the function `Names.SortStrings`; sorting in place is not modelled.
- Engine: an engine without an EventHandler, the stderr flag of a log event, and step names, which are positions here.
- Engine: timestamps, durations and error texts; an error is present or absent.
- Runner implementations (Docker client, volumes, workspaces): the runner is the configuration's answers plus the recorded calls.
- Display: plain forward printing without a terminal, the final summary, and the goroutine of the ticker.
- Display: colours (zero width), the text of durations, which is a parameter, and characters that a terminal draws wider or narrower than one column.
- Display: what control characters other than line feeds do to a terminal; the model records that one was printed and then promises nothing about the screen. `%q` escapes some further characters that the model prints as they are.
- Display: a zone higher than the terminal, which scrolls, and a terminal that is resized.
- Convert: a nil map and an empty map are the same value, since every function modelled treats them alike.
- YAML parsing, RPC transport, signals, cobra commands, the server's run registry and the web frontend.
- Event and status enum conversions: finite tables settled by one branch each.
