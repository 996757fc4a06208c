/** What the record says after any inputs, in terms of the inputs themselves, and what the drawn lines say of
    the record, in terms of their text. */
module Histories {
  import opened Names
  import opened Model
  import opened Texts
  import opened Progress
  import opened Rendering

  // -------------------------------------------------------------- jobs on record

  /** An input that puts a job on record if it is not there yet. */
  predicate Introduces(input: Input, n: Name) {
    match input
    case Handle(e) => (e.JobStarted? || e.JobSkipped?) && e.job == n
    case Refresh => false
    case Depends(job, _) => job == n
  }

  /** An event that is about the job. */
  predicate Concerns(input: Input, n: Name) {
    input.Handle? && (input.event.JobStarted? || input.event.JobFinished? || input.event.JobSkipped?)
    && input.event.job == n
  }

  /** A redraw leaves the record alone, but for what has been promoted. */
  lemma RedrawKeeps(ui: Ui)
    ensures var after := AfterRedraw(ui);
      && after.jobs == ui.jobs && after.steps == ui.steps && after.title == ui.title
      && after.jobOrder == ui.jobOrder && after.stepOrder == ui.stepOrder && after.finished == ui.finished
  {
  }

  lemma JobsNoted(ui: Ui, e: Event, n: Name)
    ensures n in Noted(ui, e).jobs <==> n in ui.jobs || Introduces(Handle(e), n)
    ensures n in ui.jobs && !Concerns(Handle(e), n) ==> Noted(ui, e).jobs[n] == ui.jobs[n]
  {
    hide LinesOf, StepKey, Logged, StepOr;
  }

  lemma JobsAfter(ui: Ui, input: Input, n: Name)
    ensures n in AfterInput(ui, input).jobs <==> n in ui.jobs || Introduces(input, n)
    ensures n in ui.jobs && !Concerns(input, n) ==>
      var js, was := AfterInput(ui, input).jobs[n], ui.jobs[n];
      && js.name == was.name && js.status == was.status && js.startedAt == was.startedAt
      && js.duration == was.duration && js.errMsg == was.errMsg
  {
    hide AfterRedraw, Noted, Refreshes;
    RedrawKeeps(ui);
    if input.Handle? {
      JobsNoted(ui, input.event, n);
      RedrawKeeps(Noted(ui, input.event));
    }
  }

  /** The jobs on record are those of the inputs. */
  lemma {:induction false} KnownJobs(ui: Ui, inputs: seq<Input>, n: Name)
    ensures n in AfterInputs(ui, inputs).jobs
       <==> n in ui.jobs || exists i :: 0 <= i < |inputs| && Introduces(inputs[i], n)
  {
    hide AfterInput, Introduces;
    if inputs == [] {
    } else {
      var k := |inputs| - 1;
      KnownJobs(ui, inputs[..k], n);
      JobsAfter(AfterInputs(ui, inputs[..k]), inputs[k], n);
      assert forall i :: 0 <= i < k ==> inputs[..k][i] == inputs[i];
    }
  }

  /** What the record of a job says, given the last event about it, and its record before that event. */
  ghost predicate SaysOfJob(js: JobState, e: Event, before: map<Name, JobState>) {
    match e
    case JobStarted(_, at) => js.status == Running && js.startedAt == at && js.duration == 0 && js.errMsg == ""
    case JobSkipped(_) => js.status == Skipped && js.duration == 0 && js.errMsg == ""
    case JobFinished(n, status, duration, error) =>
      n in before ==> js.status == status && js.duration == duration && js.errMsg == error
                      && js.startedAt == before[n].startedAt
    case _ => true
  }

  predicate TellsJob(e: Event) {
    e.JobStarted? || e.JobFinished? || e.JobSkipped?
  }

  /** The record of the job that the event is about, unless it finishes a job that is not on record. */
  ghost predicate RecordsJob(before: map<Name, JobState>, e: Event, after: map<Name, JobState>) {
    TellsJob(e) && (e.JobFinished? ==> e.job in before) ==> e.job in after && SaysOfJob(after[e.job], e, before)
  }

  lemma NotedRecords(ui: Ui, e: Event)
    ensures RecordsJob(ui.jobs, e, Noted(ui, e).jobs)
  {
    hide Noted, SaysOfJob;
    if TellsJob(e) && (e.JobFinished? ==> e.job in ui.jobs) { NotedSays(ui, e); }
  }

  lemma NotedSays(ui: Ui, e: Event)
    requires TellsJob(e) && (e.JobFinished? ==> e.job in ui.jobs)
    ensures e.job in Noted(ui, e).jobs && SaysOfJob(Noted(ui, e).jobs[e.job], e, ui.jobs)
  {
    hide LinesOf, StepKey, Logged, StepOr;
  }

  lemma JobTold(ui: Ui, input: Input, n: Name)
    requires Concerns(input, n) && (n in ui.jobs || !input.event.JobFinished?)
    ensures n in AfterInput(ui, input).jobs && SaysOfJob(AfterInput(ui, input).jobs[n], input.event, ui.jobs)
  {
    hide AfterRedraw, Noted, SaysOfJob;
    NotedSays(ui, input.event);
    RedrawKeeps(Noted(ui, input.event));
  }

  /** An event about a job that is not on record changes nothing unless it is put on record by it. */
  lemma UnknownFinish(ui: Ui, e: Event)
    requires e.JobFinished? && e.job !in ui.jobs
    ensures Noted(ui, e) == ui
  {
  }

  /** A job's status, start, duration and error are what the last event about it says. */
  lemma {:induction false} JobAsLastTold(ui: Ui, inputs: seq<Input>, i: nat, n: Name)
    requires i < |inputs| && Concerns(inputs[i], n)
    requires forall k :: i < k < |inputs| ==> !Concerns(inputs[k], n)
    requires n in AfterInputs(ui, inputs[..i]).jobs || !inputs[i].event.JobFinished?
    ensures n in AfterInputs(ui, inputs).jobs
    ensures SaysOfJob(AfterInputs(ui, inputs).jobs[n], inputs[i].event, AfterInputs(ui, inputs[..i]).jobs)
  {
    hide AfterInput, Concerns;
    var k := |inputs| - 1;
    if i == k {
      JobTold(AfterInputs(ui, inputs[..k]), inputs[k], n);
    } else {
      assert inputs[..k][..i] == inputs[..i];
      JobAsLastTold(ui, inputs[..k], i, n);
      JobsAfter(AfterInputs(ui, inputs[..k]), inputs[k], n);
    }
  }

  // --------------------------------------------------------------- dependencies

  /** An input that decides what a job depends on: JobSkipped forgets it. */
  predicate SetsDeps(input: Input, n: Name) {
    match input
    case Handle(e) => e.JobSkipped? && e.job == n
    case Refresh => false
    case Depends(job, _) => job == n
  }

  function DepsSet(input: Input): seq<Name> {
    if input.Depends? then input.deps else []
  }

  lemma DepsAfter(ui: Ui, input: Input, n: Name)
    ensures SetsDeps(input, n) ==>
      n in AfterInput(ui, input).jobs && AfterInput(ui, input).jobs[n].dependsOn == DepsSet(input)
    ensures !SetsDeps(input, n) && n in ui.jobs ==>
      n in AfterInput(ui, input).jobs && AfterInput(ui, input).jobs[n].dependsOn == ui.jobs[n].dependsOn
  {
    hide AfterRedraw, LinesOf, StepKey, Logged, StepOr;
    RedrawKeeps(ui);
    if input.Handle? { RedrawKeeps(Noted(ui, input.event)); }
  }

  /** A job waits for what was last recorded for it. */
  lemma {:induction false} DepsAsLastSet(ui: Ui, inputs: seq<Input>, i: nat, n: Name)
    requires i < |inputs| && SetsDeps(inputs[i], n) && forall k :: i < k < |inputs| ==> !SetsDeps(inputs[k], n)
    ensures n in AfterInputs(ui, inputs).jobs && AfterInputs(ui, inputs).jobs[n].dependsOn == DepsSet(inputs[i])
  {
    hide AfterInput, SetsDeps, DepsSet;
    var k := |inputs| - 1;
    DepsAfter(AfterInputs(ui, inputs[..k]), inputs[k], n);
    if i == k {
    } else {
      DepsAsLastSet(ui, inputs[..k], i, n);
    }
  }

  // -------------------------------------------------------------- steps on record

  /** An event that is about the step, log data included. */
  predicate Mentions(input: Input, key: string) {
    input.Handle? && (input.event.StepStarted? || input.event.StepFinished? || input.event.StepLog?)
    && StepKey(input.event.job, input.event.step) == key
  }

  /** An event that decides the status of the step. */
  predicate TellsStep(input: Input, key: string) {
    Mentions(input, key) && !input.event.StepLog?
  }

  lemma StepsAfter(ui: Ui, input: Input, key: string)
    ensures key in AfterInput(ui, input).steps <==> key in ui.steps || Mentions(input, key)
    ensures key in ui.steps && !TellsStep(input, key) ==>
      AfterInput(ui, input).steps[key].status == ui.steps[key].status
    ensures TellsStep(input, key) ==>
      AfterInput(ui, input).steps[key].status == if input.event.StepStarted? then Running else input.event.status
    ensures key !in ui.steps && Mentions(input, key) && input.event.StepLog? ==>
      AfterInput(ui, input).steps[key].status == Running
  {
    hide AfterRedraw, LinesOf, StepKey, LastN;
    RedrawKeeps(ui);
    if input.Handle? { RedrawKeeps(Noted(ui, input.event)); }
  }

  /** The steps on record are those of the inputs. */
  lemma {:induction false} KnownSteps(ui: Ui, inputs: seq<Input>, key: string)
    ensures key in AfterInputs(ui, inputs).steps
       <==> key in ui.steps || exists i :: 0 <= i < |inputs| && Mentions(inputs[i], key)
  {
    hide AfterInput, Mentions;
    if inputs == [] {
    } else {
      var k := |inputs| - 1;
      KnownSteps(ui, inputs[..k], key);
      StepsAfter(AfterInputs(ui, inputs[..k]), inputs[k], key);
      assert forall i :: 0 <= i < k ==> inputs[..k][i] == inputs[i];
    }
  }

  /** A step's status is that of its last StepStarted or StepFinished. */
  lemma {:induction false} StepAsLastTold(ui: Ui, inputs: seq<Input>, i: nat, key: string)
    requires i < |inputs| && TellsStep(inputs[i], key) && forall k :: i < k < |inputs| ==> !TellsStep(inputs[k], key)
    ensures key in AfterInputs(ui, inputs).steps
    ensures AfterInputs(ui, inputs).steps[key].status
         == if inputs[i].event.StepStarted? then Running else inputs[i].event.status
  {
    hide AfterInput, StepKey;
    var k := |inputs| - 1;
    StepsAfter(AfterInputs(ui, inputs[..k]), inputs[k], key);
    if i == k {
    } else {
      StepAsLastTold(ui, inputs[..k], i, key);
    }
  }

  // ------------------------------------------------------ names, orders, the rest

  /** Every record carries the name under which it is kept. */
  ghost predicate WellNamed(ui: Ui) {
    && (forall n :: n in ui.jobs ==> ui.jobs[n].name == n)
    && (forall k :: k in ui.steps ==> StepKey(ui.steps[k].jobName, ui.steps[k].stepName) == k)
  }

  lemma NotedWellNamed(ui: Ui, e: Event)
    requires WellNamed(ui)
    ensures WellNamed(Noted(ui, e))
  {
    hide LinesOf, StepKey, LastN;
  }

  lemma RedrawWellNamed(ui: Ui)
    requires WellNamed(ui)
    ensures WellNamed(AfterRedraw(ui))
  {
    hide StepKey;
    RedrawKeeps(ui);
  }

  lemma DepsWellNamed(ui: Ui, n: Name, deps: seq<Name>)
    requires WellNamed(ui)
    ensures WellNamed(WithDeps(ui, n, deps))
  {
    hide StepKey;
  }

  lemma {:induction false} StaysWellNamed(ui: Ui, inputs: seq<Input>)
    requires WellNamed(ui)
    ensures WellNamed(AfterInputs(ui, inputs))
  {
    hide WellNamed, Noted, AfterRedraw, WithDeps, Refreshes;
    if inputs == [] {
    } else {
      var k := |inputs| - 1;
      var before := AfterInputs(ui, inputs[..k]);
      StaysWellNamed(ui, inputs[..k]);
      match inputs[k]
      case Handle(e) =>
        NotedWellNamed(before, e);
        RedrawWellNamed(Noted(before, e));
      case Refresh => RedrawWellNamed(before);
      case Depends(job, deps) => DepsWellNamed(before, job, deps);
    }
  }

  lemma OrdersNoted(ui: Ui, e: Event)
    ensures ui.jobOrder <= Noted(ui, e).jobOrder && ui.stepOrder <= Noted(ui, e).stepOrder
    ensures Noted(ui, e).finished <==> ui.finished || e.PipelineFinished?
    ensures Noted(ui, e).title
         == if e.PipelineStarted? then if e.name == "" then e.id else e.name else ui.title
  {
    hide LinesOf, StepKey, Logged, StepOr;
  }

  lemma OrdersAfter(ui: Ui, input: Input)
    ensures ui.jobOrder <= AfterInput(ui, input).jobOrder && ui.stepOrder <= AfterInput(ui, input).stepOrder
    ensures AfterInput(ui, input).finished <==> ui.finished || (input.Handle? && input.event.PipelineFinished?)
    ensures AfterInput(ui, input).title
         == if input.Handle? && input.event.PipelineStarted? then
              if input.event.name == "" then input.event.id else input.event.name
            else ui.title
  {
    hide AfterRedraw, Noted, Refreshes;
    RedrawKeeps(ui);
    if input.Handle? {
      OrdersNoted(ui, input.event);
      RedrawKeeps(Noted(ui, input.event));
    }
  }

  /** Jobs and steps are shown in the order in which they came up: the lists only grow at their ends. And the
      display is finished exactly when some PipelineFinished has come. */
  lemma {:induction false} OrdersGrow(ui: Ui, inputs: seq<Input>)
    ensures ui.jobOrder <= AfterInputs(ui, inputs).jobOrder && ui.stepOrder <= AfterInputs(ui, inputs).stepOrder
    ensures AfterInputs(ui, inputs).finished
       <==> ui.finished || exists i :: 0 <= i < |inputs| && inputs[i] == Handle(PipelineFinished)
  {
    hide AfterInput;
    if inputs == [] {
    } else {
      var k := |inputs| - 1;
      OrdersGrow(ui, inputs[..k]);
      OrdersAfter(AfterInputs(ui, inputs[..k]), inputs[k]);
      assert forall i :: 0 <= i < k ==> inputs[..k][i] == inputs[i];
    }
  }

  // ------------------------------------------------------------------ promotion

  predicate IsFinal(status: Status) {
    status == Success || status == Failed || status == Skipped || status == Canceled
  }

  /** After a redraw exactly these are promoted: those that were, and the jobs with a final status. */
  lemma PromotedExactly(ui: Ui, n: Name)
    ensures n in AfterRedraw(ui).promoted
       <==> n in ui.promoted || (n in ui.jobOrder && n in ui.jobs && IsFinal(ui.jobs[n].status))
  {
    hide ToPromote;
    PromotesFrom(ui, ui.jobOrder);
    if n in ui.jobOrder && n in ui.jobs && !IsActive(ui.jobs[n].status) { NoJobIsLost(ui, ui.jobOrder, n); }
  }

  /** The static line that tells how a job ended. */
  function EndLine(name: Name, status: Status, time: string, errMsg: string): string {
    if status == Success then " \U{2713} " + name + " " + time
    else if status == Failed && errMsg == "" then " \U{2717} " + name + " " + time
    else if status == Failed then " \U{2717} " + name + " " + time + " \U{2014} " + errMsg
    else if status == Skipped then " \U{2298} " + name + " skipped"
    else " \U{2297} " + name
  }

  lemma StaticTellsEnd(ui: Ui, js: JobState, look: Look)
    requires IsFinal(js.status)
    ensures EndLine(js.name, js.status, look.durText(js.duration), js.errMsg) in StaticLines(ui, js, look)
  {
    hide FailedTails;
    var line := " \U{2717} " + js.name + " " + look.durText(js.duration);
    assert line + "" == line;
    assert line + (" \U{2014} " + js.errMsg) == line + " \U{2014} " + js.errMsg;
    assert StaticLines(ui, js, look)[0] == EndLine(js.name, js.status, look.durText(js.duration), js.errMsg);
  }

  lemma {:induction false} PromotedIncludes(ui: Ui, order: seq<Name>, n: Name, look: Look, line: string)
    requires n in order && Promotable(ui, n) && line in StaticLines(ui, ui.jobs[n], look)
    ensures line in PromotedLines(ui, order, look)
  {
    hide StaticLines, Promotable;
    var k := |order| - 1;
    assert order == order[..k] + [order[k]];
    if n == order[k] {
    } else {
      PromotedIncludes(ui, order[..k], n, look, line);
    }
  }

  /** When a job that has not been promoted finishes, the redraw promotes it and prints its end line: a tick,
      a cross with its error, or a circle, with its name. */
  lemma FinishIsShown(ui: Ui, e: Event, look: Look)
    requires e.JobFinished? && e.job in ui.jobs && e.job in ui.jobOrder && e.job !in ui.promoted && IsFinal(e.status)
    ensures var noted := Noted(ui, e);
      && noted.jobOrder == ui.jobOrder && e.job in AfterRedraw(noted).promoted
      && EndLine(ui.jobs[e.job].name, e.status, look.durText(e.duration), e.error)
           in PromotedLines(noted, noted.jobOrder, look)
  {
    hide StaticLines, AfterRedraw, EndLine;
    var noted := Noted(ui, e);
    PromotedExactly(noted, e.job);
    StaticTellsEnd(noted, noted.jobs[e.job], look);
    PromotedIncludes(noted, noted.jobOrder, e.job, look,
      EndLine(ui.jobs[e.job].name, e.status, look.durText(e.duration), e.error));
  }

  /** A finish that comes while the display is live, of a job not promoted before, is shown in these lines. */
  ghost predicate FinishShown(ui: Ui, e: Event, look: Look, lines: seq<string>) {
    e.JobFinished? && e.job in ui.jobs && e.job !in ui.promoted && IsFinal(e.status) ==>
      EndLine(ui.jobs[e.job].name, e.status, look.durText(e.duration), e.error) in lines
  }

  lemma RedrawShowsFinish(ui: Ui, e: Event, look: Look, header: seq<string>)
    requires forall n :: n in ui.jobs ==> n in ui.jobOrder
    ensures FinishShown(ui, e, look, header + PromotedLines(Noted(ui, e), Noted(ui, e).jobOrder, look))
  {
    hide Noted, PromotedLines, EndLine;
    if e.JobFinished? && e.job in ui.jobs && e.job !in ui.promoted && IsFinal(e.status) { FinishIsShown(ui, e, look); }
  }

  /** The tails below a failed job are the kept log lines of its failed steps, and nothing else. */
  lemma {:induction false} FailedTailsHold(steps: map<string, StepState>, keys: seq<string>, job: Name, line: string)
    ensures line in FailedTails(steps, keys, job)
       <==> exists key, i :: key in keys && key in steps && steps[key].jobName == job && steps[key].status == Failed
              && 0 <= i < |steps[key].logLines| && line == "   \U{2502} " + steps[key].logLines[i]
  {
    if keys == [] {
    } else {
      var k := |keys| - 1;
      assert keys == keys[..k] + [keys[k]];
      FailedTailsHold(steps, keys[..k], job, line);
      if keys[k] in steps { PrefixedHolds("   \U{2502} ", steps[keys[k]].logLines, line); }
    }
  }

  lemma PrefixedHolds(prefix: string, lines: seq<string>, line: string)
    ensures line in Prefixed(prefix, lines) <==> exists i :: 0 <= i < |lines| && line == prefix + lines[i]
  {
  }

  // -------------------------------------------------------------- the bottom zone

  /** Jobs are drawn and promoted in display order, each on its own. */
  lemma {:induction false} ZoneAppend(ui: Ui, a: seq<Name>, b: seq<Name>, look: Look)
    ensures BottomZone(ui, a + b, look) == BottomZone(ui, a, look) + BottomZone(ui, b, look)
  {
    hide JobLines;
    if b == [] {
      assert a + b == a;
    } else {
      var k := |b| - 1;
      assert (a + b)[..|a + b| - 1] == a + b[..k] && (a + b)[|a + b| - 1] == b[k];
      ZoneAppend(ui, a, b[..k], look);
      Regroup(BottomZone(ui, a, look), BottomZone(ui, b[..k], look), JobLines(ui, b[k], look));
    }
  }

  function PromotedOne(ui: Ui, n: Name, look: Look): seq<string> {
    if Promotable(ui, n) then StaticLines(ui, ui.jobs[n], look) else []
  }

  lemma {:induction false} PromotedAppend(ui: Ui, a: seq<Name>, b: seq<Name>, look: Look)
    ensures PromotedLines(ui, a + b, look) == PromotedLines(ui, a, look) + PromotedLines(ui, b, look)
  {
    hide StaticLines;
    if b == [] {
      assert a + b == a;
    } else {
      var k := |b| - 1;
      assert (a + b)[..|a + b| - 1] == a + b[..k] && (a + b)[|a + b| - 1] == b[k];
      PromotedAppend(ui, a, b[..k], look);
      Regroup(PromotedLines(ui, a, look), PromotedLines(ui, b[..k], look), PromotedOne(ui, b[k], look));
    }
  }

  /** What the zone says first of a job that is running or pending. */
  function ActiveLine(name: Name, time: string, waiting: seq<Name>, running: bool): string {
    if running then " => " + name + " " + time
    else if waiting == [] then " => " + name
    else " => " + name + " (waiting for " + Commas(waiting) + ")"
  }

  /** A job has lines in the zone exactly while it is running or pending, and the first of them says how long
      it has been running, or for whom it is waiting. */
  lemma ZoneTellsJob(ui: Ui, n: Name, look: Look)
    ensures JobLines(ui, n, look) != [] <==> n in ui.jobs && !IsFinal(ui.jobs[n].status)
    ensures n in ui.jobs && !IsFinal(ui.jobs[n].status) ==>
      JobLines(ui, n, look)[0]
      == ActiveLine(n,
           look.durText(if look.now <= ui.jobs[n].startedAt then 0 else look.now - ui.jobs[n].startedAt),
           WaitingDeps(ui.jobs, ui.jobs[n].dependsOn), ui.jobs[n].status == Running)
    ensures n in ui.jobs && ui.jobs[n].status == Pending ==> |JobLines(ui, n, look)| == 1
  {
    hide JobTails, WaitingDeps, Commas;
  }

  /** Exactly the dependencies without a final status are waited for, each as often and in the order in
      which it is listed. */
  lemma {:induction false} WaitingIsFilter(jobs: map<Name, JobState>, a: seq<Name>, b: seq<Name>)
    ensures WaitingDeps(jobs, a + b) == WaitingDeps(jobs, a) + WaitingDeps(jobs, b)
    ensures forall d ::
      multiset(WaitingDeps(jobs, a))[d] == if d in jobs && IsFinal(jobs[d].status) then 0 else multiset(a)[d]
  {
    WaitingCount(jobs, a);
    WaitingAppend(jobs, a, b);
  }

  lemma {:induction false} WaitingCount(jobs: map<Name, JobState>, a: seq<Name>)
    ensures forall d ::
      multiset(WaitingDeps(jobs, a))[d] == if d in jobs && IsFinal(jobs[d].status) then 0 else multiset(a)[d]
  {
    if a == [] {
    } else {
      WaitingCount(jobs, a[..|a| - 1]);
      assert a == a[..|a| - 1] + [a[|a| - 1]];
    }
  }

  lemma {:induction false} WaitingAppend(jobs: map<Name, JobState>, a: seq<Name>, b: seq<Name>)
    ensures WaitingDeps(jobs, a + b) == WaitingDeps(jobs, a) + WaitingDeps(jobs, b)
  {
    if b == [] {
      assert a + b == a;
    } else {
      var k := |b| - 1;
      assert (a + b)[..|a + b| - 1] == a + b[..k];
      WaitingAppend(jobs, a, b[..k]);
    }
  }

  /** The names joined: a comma and a space between any two. */
  lemma {:induction false} CommasJoin(a: seq<string>, b: seq<string>)
    requires a != [] && b != []
    ensures Commas(a + b) == Commas(a) + ", " + Commas(b)
    ensures Commas([b[0]]) == b[0]
  {
    if |b| == 1 {
      assert (a + b)[..|a|] == a;
    } else {
      var k := |b| - 1;
      assert (a + b)[..|a + b| - 1] == a + b[..k];
      CommasJoin(a, b[..k]);
      Rejoin(Commas(a), ", ", Commas(b[..k]), ", ", b[k]);
    }
  }

  lemma Rejoin(a: string, b: string, c: string, d: string, e: string)
    ensures a + b + (c + d + e) == a + b + c + d + e
  {
    assert a + b + (c + d + e) == (a + b + c) + (d + e);
    assert (a + b + c) + (d + e) == a + b + c + d + e;
  }

  /** The tails below a running job are the last five log lines of each of its steps, written after the step's
      name and truncated, and nothing else. */
  lemma {:induction false} TailsHold(steps: map<string, StepState>, keys: seq<string>,
                                   job: Name, width: int, line: string)
    ensures line in JobTails(steps, keys, job, width)
       <==> exists key, i :: key in keys && key in steps && steps[key].jobName == job
              && 0 <= i < |steps[key].logLines| && |steps[key].logLines| - i <= 5
              && line == Truncated("    [" + steps[key].stepName + "] " + steps[key].logLines[i], width)
  {
    if keys == [] {
    } else {
      var k := |keys| - 1;
      assert keys == keys[..k] + [keys[k]];
      TailsHold(steps, keys[..k], job, width, line);
      if keys[k] in steps { LastFiveHold(steps[keys[k]], width, line); }
    }
  }

  lemma LastFiveHold(ss: StepState, width: int, line: string)
    ensures line in TailLines(ss, width)
       <==> exists i :: 0 <= i < |ss.logLines| && |ss.logLines| - i <= 5
              && line == Truncated("    [" + ss.stepName + "] " + ss.logLines[i], width)
  {
    hide Truncated, TailLine, LastN;
    var lines, tail := ss.logLines, LastN(MAX_TAIL_LINES, ss.logLines);
    var from := |lines| - |tail|;
    LastNSuffix(MAX_TAIL_LINES, lines);
    if line in TailLines(ss, width) {
      var m :| 0 <= m < |tail| && TailLines(ss, width)[m] == line;
      assert tail[m] == lines[from + m];
      TailText(ss.stepName, lines[from + m], width);
    }
    if i :| 0 <= i < |lines| && |lines| - i <= 5 && line == Truncated("    [" + ss.stepName + "] " + lines[i], width) {
      assert tail[i - from] == lines[i];
      TailText(ss.stepName, lines[i], width);
      assert TailLines(ss, width)[i - from] == line;
    }
  }

  lemma TailText(step: string, line: string, width: int)
    ensures TailLine(step, line, width) == Truncated("    [" + step + "] " + line, width)
  {
  }

  /** At most ten lines are kept of a step, and they are the last ones logged. */
  lemma KeptLines(ui: Ui, job: Name, step: string, inputs: seq<Input>)
    requires forall i :: 0 <= i < |inputs| ==> !Restarts(inputs[i], StepKey(job, step))
    ensures var key := StepKey(job, step); var end := AfterInputs(AfterEvent(ui, StepStarted(job, step)), inputs);
      var all := LoggedLines(inputs, key);
      key in end.steps && end.steps[key].logLines == if |all| <= 10 then all else all[|all| - 10..]
  {
    hide AfterInputs, AfterEvent, LoggedLines, StepKey, Restarts;
    CappedLogTail(ui, job, step, inputs);
  }
}
