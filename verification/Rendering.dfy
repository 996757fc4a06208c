/** What the progress handler records and what it draws, as functions: the record after each input, the
    lines of a redraw, which texts keep them on one row each, and what holds over whole histories. */
module Rendering {
  import opened Names
  import opened Model
  import opened Texts
  import opened Progress

  /** What the handler knows, apart from the screen. */
  datatype Ui = Ui(
    title: string,
    jobs: map<Name, JobState>,
    jobOrder: seq<Name>,
    steps: map<string, StepState>,
    stepOrder: seq<string>,
    promoted: set<Name>,
    finished: bool)

  /** The moment, the terminal width, and how durations are written. */
  datatype Look = Look(now: nat, width: int, durText: nat -> string)

  // ---------------------------------------------------- what an event records

  function WithJob(ui: Ui, name: Name, js: JobState): Ui {
    ui.(jobs := ui.jobs[name := js], jobOrder := if name in ui.jobs then ui.jobOrder else ui.jobOrder + [name])
  }

  function WithStep(ui: Ui, key: string, ss: StepState): Ui {
    ui.(steps := ui.steps[key := ss], stepOrder := if key in ui.steps then ui.stepOrder else ui.stepOrder + [key])
  }

  function StepOr(ui: Ui, job: Name, step: string, status: Status): StepState {
    var key := StepKey(job, step);
    if key in ui.steps then ui.steps[key] else StepState(job, step, status, [])
  }

  function Logged(ss: StepState, lines: seq<string>): StepState {
    ss.(logLines := LastN(MAX_FAILED_LOG_LINES, ss.logLines + lines))
  }

  /** The state after the switch of HandleEvent. */
  function Noted(ui: Ui, e: Event): Ui {
    match e
    case PipelineStarted(name, id) => ui.(title := if name == "" then id else name)
    case PipelineFinished => ui.(finished := true)
    case JobStarted(job, at) =>
      WithJob(ui, job, JobState(job, Running, at, 0, "", if job in ui.jobs then ui.jobs[job].dependsOn else []))
    case JobFinished(job, status, duration, error) =>
      if job in ui.jobs then WithJob(ui, job, ui.jobs[job].(status := status, duration := duration, errMsg := error))
      else ui
    case JobSkipped(job) => WithJob(ui, job, JobState(job, Skipped, 0, 0, "", []))
    case StepStarted(job, step) => WithStep(ui, StepKey(job, step), StepState(job, step, Running, []))
    case StepFinished(job, step, status) =>
      WithStep(ui, StepKey(job, step), StepOr(ui, job, step, Pending).(status := status))
    case StepLog(job, step, data) =>
      var ss := StepOr(ui, job, step, Running);
      WithStep(ui, StepKey(job, step), if LinesOf(data) == [] then ss else Logged(ss, LinesOf(data)))
  }

  predicate IsActive(status: Status) {
    status == Running || status == Pending
  }

  /** Records a dependency list; a job not yet known is pending. */
  function WithDeps(ui: Ui, name: Name, deps: seq<Name>): Ui {
    var js := if name in ui.jobs then ui.jobs[name] else JobState(name, Pending, 0, 0, "", []);
    WithJob(ui, name, js.(dependsOn := deps))
  }

  predicate Promotable(ui: Ui, name: Name) {
    name in ui.jobs && !IsActive(ui.jobs[name].status) && name !in ui.promoted
  }

  /** The jobs that a redraw promotes, in display order. */
  function ToPromote(ui: Ui, order: seq<Name>): seq<Name> {
    if order == [] then []
    else ToPromote(ui, order[..|order| - 1]) + if Promotable(ui, order[|order| - 1]) then [order[|order| - 1]] else []
  }

  function Listed(names: seq<Name>): set<Name> {
    set n | n in names
  }

  function AfterRedraw(ui: Ui): Ui {
    ui.(promoted := ui.promoted + Listed(ToPromote(ui, ui.jobOrder)))
  }

  function AfterEvent(ui: Ui, e: Event): Ui {
    var noted := Noted(ui, e);
    if noted.finished then noted else AfterRedraw(noted)
  }

  /** The periodic refresh redraws only while some job is running. */
  predicate Refreshes(ui: Ui) {
    !ui.finished && exists n :: n in ui.jobs && ui.jobs[n].status == Running
  }

  /** What the handler is called with: an event, a tick of the live refresh, or a dependency list. */
  datatype Input = Handle(event: Event) | Refresh | Depends(job: Name, deps: seq<Name>)

  function AfterInput(ui: Ui, input: Input): Ui {
    match input
    case Handle(e) => AfterEvent(ui, e)
    case Refresh => if Refreshes(ui) then AfterRedraw(ui) else ui
    case Depends(job, deps) => WithDeps(ui, job, deps)
  }

  function AfterInputs(ui: Ui, inputs: seq<Input>): Ui {
    if inputs == [] then ui else AfterInput(AfterInputs(ui, inputs[..|inputs| - 1]), inputs[|inputs| - 1])
  }

  // ------------------------------------------------------ what a redraw writes

  function Header(title: string): string { "[+] Running pipeline " + Quoted(title) }

  function HeaderOf(e: Event, title: string): seq<string> {
    if e.PipelineStarted? then [Header(title)] else []
  }

  function Prefixed(prefix: string, lines: seq<string>): (r: seq<string>)
    ensures |r| == |lines| && forall i :: 0 <= i < |lines| ==> r[i] == prefix + lines[i]
  {
    seq(|lines|, i requires 0 <= i < |lines| => prefix + lines[i])
  }

  /** The log tails of the failed steps of a job. */
  function FailedTails(steps: map<string, StepState>, keys: seq<string>, job: Name): seq<string> {
    if keys == [] then []
    else
      var key := keys[|keys| - 1];
      FailedTails(steps, keys[..|keys| - 1], job)
      + if key in steps && steps[key].jobName == job && steps[key].status == Failed
        then Prefixed("   \U{2502} ", steps[key].logLines) else []
  }

  /** The static lines of a finished job. */
  function StaticLines(ui: Ui, js: JobState, look: Look): seq<string> {
    match js.status
    case Success => [" \U{2713} " + js.name + " " + look.durText(js.duration)]
    case Failed =>
      [" \U{2717} " + js.name + " " + look.durText(js.duration)
       + if js.errMsg != "" then " \U{2014} " + js.errMsg else ""]
      + FailedTails(ui.steps, ui.stepOrder, js.name)
    case Skipped => [" \U{2298} " + js.name + " skipped"]
    case Canceled => [" \U{2297} " + js.name]
    case _ => []
  }

  function PromotedLines(ui: Ui, order: seq<Name>, look: Look): seq<string> {
    if order == [] then []
    else
      var name := order[|order| - 1];
      PromotedLines(ui, order[..|order| - 1], look)
      + if Promotable(ui, name) then StaticLines(ui, ui.jobs[name], look) else []
  }

  function TailLine(step: string, line: string, width: int): string {
    Truncated("    [" + step + "] " + line, width)
  }

  function TailLines(ss: StepState, width: int): (r: seq<string>)
    ensures |r| == |LastN(MAX_TAIL_LINES, ss.logLines)|
    ensures forall i :: 0 <= i < |r| ==> r[i] == TailLine(ss.stepName, LastN(MAX_TAIL_LINES, ss.logLines)[i], width)
  {
    var tail := LastN(MAX_TAIL_LINES, ss.logLines);
    seq(|tail|, i requires 0 <= i < |tail| => TailLine(ss.stepName, tail[i], width))
  }

  function JobTails(steps: map<string, StepState>, keys: seq<string>, job: Name, width: int): seq<string> {
    if keys == [] then []
    else
      var key := keys[|keys| - 1];
      JobTails(steps, keys[..|keys| - 1], job, width)
      + if key in steps && steps[key].jobName == job then TailLines(steps[key], width) else []
  }

  /** The dependencies that have not reached a final status. */
  function WaitingDeps(jobs: map<Name, JobState>, deps: seq<Name>): seq<Name> {
    if deps == [] then []
    else
      var dep := deps[|deps| - 1];
      WaitingDeps(jobs, deps[..|deps| - 1]) + if dep !in jobs || IsActive(jobs[dep].status) then [dep] else []
  }

  function Commas(names: seq<string>): string {
    if names == [] then ""
    else if |names| == 1 then names[0]
    else Commas(names[..|names| - 1]) + ", " + names[|names| - 1]
  }

  function Elapsed(startedAt: nat, now: nat): nat {
    if now < startedAt then 0 else now - startedAt
  }

  function PendingLine(ui: Ui, js: JobState, name: Name): string {
    var waiting := WaitingDeps(ui.jobs, js.dependsOn);
    if waiting == [] then " => " + name else " => " + name + " (waiting for " + Commas(waiting) + ")"
  }

  /** The bottom-zone lines of one job: none unless it is running or pending. */
  function JobLines(ui: Ui, name: Name, look: Look): seq<string> {
    if name !in ui.jobs then []
    else match ui.jobs[name].status
      case Running =>
        [" => " + name + " " + look.durText(Elapsed(ui.jobs[name].startedAt, look.now))]
        + JobTails(ui.steps, ui.stepOrder, name, look.width)
      case Pending => [PendingLine(ui, ui.jobs[name], name)]
      case _ => []
  }

  /** A full rendering of the bottom zone. */
  function BottomZone(ui: Ui, order: seq<Name>, look: Look): seq<string> {
    if order == [] then []
    else BottomZone(ui, order[..|order| - 1], look) + JobLines(ui, order[|order| - 1], look)
  }

  /** Bottom-zone lines are indented, unlike the header. */
  ghost predicate Indented(lines: seq<string>) {
    lines != [] ==> lines[0] != [] && lines[0][0] == ' '
  }

  lemma {:induction false} BottomIsIndented(ui: Ui, order: seq<Name>, look: Look)
    ensures Indented(BottomZone(ui, order, look))
  {
    if order == [] {
    } else {
      BottomIsIndented(ui, order[..|order| - 1], look);
    }
  }

  lemma {:induction false} PromotesFrom(ui: Ui, order: seq<Name>)
    ensures forall n :: n in ToPromote(ui, order) ==> n in order && Promotable(ui, n)
  {
    if order == [] {
    } else {
      PromotesFrom(ui, order[..|order| - 1]);
      assert order == order[..|order| - 1] + [order[|order| - 1]];
    }
  }

  lemma FailedTailsNone(steps: map<string, StepState>, job: Name)
    ensures FailedTails(steps, [], job) == []
  {
  }

  lemma FailedTailsNext(steps: map<string, StepState>, keys: seq<string>, i: nat, job: Name)
    requires i < |keys| && keys[i] in steps
    ensures var ss := steps[keys[i]];
      FailedTails(steps, keys[..i + 1], job) == FailedTails(steps, keys[..i], job)
        + if ss.jobName == job && ss.status == Failed && |ss.logLines| > 0 then Prefixed("   \U{2502} ", ss.logLines)
          else []
  {
    assert keys[..i + 1][..i] == keys[..i];
  }

  lemma NothingToPromote(ui: Ui, look: Look)
    ensures ToPromote(ui, []) == [] && PromotedLines(ui, [], look) == []
  {
  }

  /** One more job in display order: whether it is promoted does not depend on the jobs before it. */
  lemma PromoteNext(ui: Ui, now: Ui, order: seq<Name>, i: nat, look: Look)
    requires Distinct(order) && i < |order| && order[i] in ui.jobs
    requires now == ui.(promoted := ui.promoted + Listed(ToPromote(ui, order[..i])))
    ensures Promotable(now, order[i]) <==> Promotable(ui, order[i])
    ensures ToPromote(ui, order[..i + 1])
         == ToPromote(ui, order[..i]) + if Promotable(ui, order[i]) then [order[i]] else []
    ensures Listed(ToPromote(ui, order[..i + 1]))
         == Listed(ToPromote(ui, order[..i])) + if Promotable(ui, order[i]) then {order[i]} else {}
    ensures PromotedLines(ui, order[..i + 1], look)
         == PromotedLines(ui, order[..i], look)
            + if Promotable(ui, order[i]) then StaticLines(now, now.jobs[order[i]], look) else []
  {
    hide StaticLines;
    PromotesFrom(ui, order[..i]);
    assert order[i] !in order[..i];
    assert order[..i + 1][..i] == order[..i];
    SameStatics(ui, now, ui.jobs[order[i]], look);
  }

  lemma SameStatics(ui: Ui, vi: Ui, js: JobState, look: Look)
    requires ui.steps == vi.steps && ui.stepOrder == vi.stepOrder
    ensures StaticLines(ui, js, look) == StaticLines(vi, js, look)
  {
  }

  // --------------------------------------------------------------- tidy texts

  /** The width of the screen, and how long a duration may be when it is written. */
  datatype Room = Room(columns: Columns, duration: nat)

  /** What can keep a zone line from staying on one row: durations, which the caller formats, ... */
  ghost predicate ShortDurations(room: Room, durText: nat -> string) {
    forall d: nat :: Short(room.duration, durText(d))
  }

  /** ... the name of a job, written with an arrow and a duration, ... */
  predicate NameFits(room: Room, name: Name) {
    Clean(name) && |name| + 5 + room.duration <= room.columns
  }

  /** ... the names it waits for, ... */
  predicate DepsFit(room: Room, name: Name, deps: seq<Name>) {
    AllClean(deps) && (deps == [] || |name| + 19 + |Commas(deps)| <= room.columns)
  }

  predicate TidyJob(room: Room, name: Name, js: JobState) {
    NameFits(room, name) && DepsFit(room, name, js.dependsOn) && Clean(js.name) && Plain(js.errMsg)
  }

  /** ... and log lines, which are truncated. */
  predicate TidyStep(ss: StepState) {
    Clean(ss.stepName) && AllClean(ss.logLines)
  }

  predicate TidyUi(room: Room, ui: Ui) {
    && (forall n :: n in ui.jobs ==> TidyJob(room, n, ui.jobs[n]))
    && (forall k :: k in ui.steps ==> TidyStep(ui.steps[k]))
  }

  /** Names without control characters and not too long; error messages and log data may hold line feeds.
      The name of the pipeline is free, because it is printed quoted and is not part of the zone. */
  predicate TidyEvent(room: Room, e: Event) {
    match e
    case PipelineStarted(_, _) => true
    case PipelineFinished => true
    case JobStarted(job, _) => NameFits(room, job)
    case JobFinished(_, _, _, error) => Plain(error)
    case JobSkipped(job) => NameFits(room, job)
    case StepStarted(_, step) => Clean(step)
    case StepFinished(_, step, _) => Clean(step)
    case StepLog(_, step, data) => Clean(step) && Plain(data)
  }

  predicate TidyInput(room: Room, input: Input) {
    match input
    case Handle(e) => TidyEvent(room, e)
    case Refresh => true
    case Depends(job, deps) => NameFits(room, job) && DepsFit(room, job, deps)
  }

  lemma NoText()
    ensures Clean("") && Plain("")
  {
  }

  lemma TidyWithJob(room: Room, ui: Ui, name: Name, js: JobState)
    requires TidyUi(room, ui) && TidyJob(room, name, js)
    ensures TidyUi(room, WithJob(ui, name, js))
  {
    hide TidyJob, TidyStep;
  }

  lemma TidyWithStep(room: Room, ui: Ui, key: string, ss: StepState)
    requires TidyUi(room, ui) && TidyStep(ss)
    ensures TidyUi(room, WithStep(ui, key, ss))
  {
    hide TidyJob, TidyStep;
  }

  lemma LinesClean(data: string)
    requires Plain(data)
    ensures AllClean(LinesOf(data))
  {
    hide Plain, Clean, TrimNewlines, SplitLines;
    TrimmedPlain(data);
    SplitClean(TrimNewlines(data));
  }

  lemma LoggedTidy(ss: StepState, lines: seq<string>)
    requires TidyStep(ss) && AllClean(lines)
    ensures TidyStep(Logged(ss, lines))
  {
    hide Clean;
    assert forall l :: l in Logged(ss, lines).logLines ==> l in ss.logLines || l in lines;
  }

  lemma JobNoted(room: Room, ui: Ui, e: Event)
    requires TidyUi(room, ui) && TidyEvent(room, e) && !e.StepStarted? && !e.StepFinished? && !e.StepLog?
    ensures TidyUi(room, Noted(ui, e))
  {
    hide Clean, Plain, WithJob;
    NoText();
    match e
    case JobStarted(job, at) =>
      var deps := if job in ui.jobs then ui.jobs[job].dependsOn else [];
      TidyWithJob(room, ui, job, JobState(job, Running, at, 0, "", deps));
    case JobFinished(job, status, duration, error) =>
      if job in ui.jobs {
        TidyWithJob(room, ui, job, ui.jobs[job].(status := status, duration := duration, errMsg := error));
      }
    case JobSkipped(job) => TidyWithJob(room, ui, job, JobState(job, Skipped, 0, 0, "", []));
    case _ =>
  }

  lemma StepNoted(room: Room, ui: Ui, e: Event)
    requires TidyUi(room, ui) && TidyEvent(room, e) && (e.StepStarted? || e.StepFinished? || e.StepLog?)
    ensures TidyUi(room, Noted(ui, e))
  {
    hide Clean, Plain, WithStep, LinesOf, StepKey, Logged;
    var key := StepKey(e.job, e.step);
    match e
    case StepStarted(job, step) => TidyWithStep(room, ui, key, StepState(job, step, Running, []));
    case StepFinished(job, step, status) =>
      TidyWithStep(room, ui, key, StepOr(ui, job, step, Pending).(status := status));
    case StepLog(job, step, data) =>
      var ss := StepOr(ui, job, step, Running);
      LinesClean(data);
      LoggedTidy(ss, LinesOf(data));
      TidyWithStep(room, ui, key, if LinesOf(data) == [] then ss else Logged(ss, LinesOf(data)));
  }

  lemma TidyNoted(room: Room, ui: Ui, e: Event)
    requires TidyUi(room, ui) && TidyEvent(room, e)
    ensures TidyUi(room, Noted(ui, e))
  {
    hide *;
    if e.StepStarted? || e.StepFinished? || e.StepLog? { StepNoted(room, ui, e); } else { JobNoted(room, ui, e); }
  }

  lemma TidyRedraw(room: Room, ui: Ui)
    ensures TidyUi(room, AfterRedraw(ui)) == TidyUi(room, ui)
  {
    hide TidyJob, TidyStep;
  }

  lemma TidyDeps(room: Room, ui: Ui, name: Name, deps: seq<Name>)
    requires TidyUi(room, ui) && NameFits(room, name) && DepsFit(room, name, deps)
    ensures TidyUi(room, WithDeps(ui, name, deps))
  {
    hide Clean, Plain, WithJob;
    NoText();
    var js := if name in ui.jobs then ui.jobs[name] else JobState(name, Pending, 0, 0, "", []);
    TidyWithJob(room, ui, name, js.(dependsOn := deps));
  }

  /** Tidy inputs keep a tidy record. */
  lemma TidyAfter(room: Room, ui: Ui, input: Input)
    requires TidyUi(room, ui) && TidyInput(room, input)
    ensures TidyUi(room, AfterInput(ui, input))
  {
    hide TidyUi, TidyEvent, Noted, AfterRedraw, WithDeps, Refreshes;
    match input
    case Handle(e) =>
      TidyNoted(room, ui, e);
      TidyRedraw(room, Noted(ui, e));
    case Refresh => TidyRedraw(room, ui);
    case Depends(job, deps) => TidyDeps(room, ui, job, deps);
  }

  lemma {:induction false} CleanScan(s: string)
    requires Clean(s)
    ensures ScanOf(s) == Scan(|s|, false)
  {
    if s == [] {
    } else {
      assert s == s[..|s| - 1] + [s[|s| - 1]];
      CleanScan(s[..|s| - 1]);
      assert s[|s| - 1] in s;
    }
  }

  lemma TruncatedShort(s: string, width: int)
    requires Clean(s) && width > 0
    ensures Short(width, Truncated(s, width))
  {
    TruncatedIsLongest(s, width);
    CleanScan(Truncated(s, width));
  }

  lemma TailLineShort(step: string, line: string, width: int)
    requires Clean(step) && Clean(line) && width > 0
    ensures Short(width, TailLine(step, line, width))
  {
    hide IsControl, Clean, Truncated, Short;
    Blanks();
    CleanAppend("    [", step);
    CleanAppend("    [" + step, "] ");
    CleanAppend("    [" + step + "] ", line);
    TruncatedShort("    [" + step + "] " + line, width);
  }

  lemma Blanks()
    ensures Clean("    [") && Clean("] ") && Clean(" => ") && Clean(" ")
    ensures Clean(" (waiting for ") && Clean(")") && Clean(", ")
  {
  }

  lemma NoLines(w: nat)
    ensures AllShort(w, []) && AllPlain([])
  {
  }

  lemma BothShort(w: nat, a: seq<string>, b: seq<string>)
    ensures AllShort(w, a + b) <==> AllShort(w, a) && AllShort(w, b)
  {
    hide Short;
    assert forall l :: l in a + b <==> l in a || l in b;
  }

  lemma TailsShort(w: nat, ss: StepState, width: int)
    requires TidyStep(ss) && 0 < width <= w
    ensures AllShort(w, TailLines(ss, width))
  {
    hide Clean, TailLine;
    var tail := LastN(MAX_TAIL_LINES, ss.logLines);
    forall i | 0 <= i < |tail| ensures Short(w, TailLine(ss.stepName, tail[i], width)) {
      assert tail[i] in ss.logLines;
      TailLineShort(ss.stepName, tail[i], width);
    }
  }

  lemma {:induction false} JobTailsShort(w: nat, steps: map<string, StepState>, keys: seq<string>,
                                         job: Name, width: int)
    requires (forall k :: k in steps ==> TidyStep(steps[k])) && 0 < width <= w
    ensures AllShort(w, JobTails(steps, keys, job, width))
  {
    hide AllShort, TidyStep, TailLine;
    if keys == [] {
      NoLines(w);
    } else {
      var key := keys[|keys| - 1];
      var before := JobTails(steps, keys[..|keys| - 1], job, width);
      JobTailsShort(w, steps, keys[..|keys| - 1], job, width);
      if key in steps && steps[key].jobName == job {
        TailsShort(w, steps[key], width);
        BothShort(w, before, TailLines(steps[key], width));
      } else {
        assert before + [] == before;
      }
    }
  }

  /** The names still waited for are some of the listed ones, and take no more room. */
  lemma {:induction false} WaitingAmong(jobs: map<Name, JobState>, deps: seq<Name>)
    ensures forall d :: d in WaitingDeps(jobs, deps) ==> d in deps
    ensures |Commas(WaitingDeps(jobs, deps))| <= |Commas(deps)|
  {
    if deps == [] {
    } else {
      var k := |deps| - 1;
      WaitingAmong(jobs, deps[..k]);
      assert deps == deps[..k] + [deps[k]];
      var some := WaitingDeps(jobs, deps[..k]);
      CommasLength(some, deps[k]);
      CommasLength(deps[..k], deps[k]);
      assert some + [] == some;
    }
  }

  lemma CommasLength(names: seq<Name>, last: Name)
    ensures |Commas(names + [last])| == |last| + if names == [] then 0 else |Commas(names)| + 2
  {
    assert (names + [last])[..|names|] == names;
  }

  lemma {:induction false} CommasClean(names: seq<string>)
    requires AllClean(names)
    ensures Clean(Commas(names))
  {
    hide Clean;
    if |names| <= 1 {
      NoText();
    } else {
      var k := |names| - 1;
      CommasClean(names[..k]);
      Blanks();
      CleanAppend(Commas(names[..k]), ", ");
      CleanAppend(Commas(names[..k]) + ", ", names[k]);
    }
  }

  lemma PendingLineShort(room: Room, ui: Ui, js: JobState, name: Name)
    requires TidyJob(room, name, js)
    ensures Short(room.columns, PendingLine(ui, js, name))
  {
    hide Clean, Plain, WaitingDeps, Commas;
    var waiting := WaitingDeps(ui.jobs, js.dependsOn);
    WaitingAmong(ui.jobs, js.dependsOn);
    CommasClean(waiting);
    Blanks();
    CleanAppend(" => ", name);
    CleanAppend(" => " + name, " (waiting for ");
    CleanAppend(" => " + name + " (waiting for ", Commas(waiting));
    CleanAppend(" => " + name + " (waiting for " + Commas(waiting), ")");
    if waiting != [] { assert waiting[0] in js.dependsOn; }
  }

  lemma RunningLineShort(room: Room, name: Name, text: string)
    requires NameFits(room, name) && Short(room.duration, text)
    ensures Short(room.columns, " => " + name + " " + text)
  {
    hide Clean;
    Blanks();
    CleanAppend(" => ", name);
    CleanAppend(" => " + name, " ");
    CleanAppend(" => " + name + " ", text);
  }

  lemma JobLinesShort(room: Room, ui: Ui, name: Name, look: Look)
    requires TidyUi(room, ui) && ShortDurations(room, look.durText) && 0 < look.width <= room.columns
    ensures AllShort(room.columns, JobLines(ui, name, look))
  {
    hide Clean, Plain, JobTails, PendingLine, AllClean, Commas;
    if name in ui.jobs {
      assert TidyJob(room, name, ui.jobs[name]);
      match ui.jobs[name].status
      case Running =>
        var text := look.durText(Elapsed(ui.jobs[name].startedAt, look.now));
        JobTailsShort(room.columns, ui.steps, ui.stepOrder, name, look.width);
        RunningLineShort(room, name, text);
        BothShort(room.columns, [" => " + name + " " + text], JobTails(ui.steps, ui.stepOrder, name, look.width));
      case Pending => PendingLineShort(room, ui, ui.jobs[name], name);
      case _ =>
    }
  }

  lemma {:induction false} ZoneShort(room: Room, ui: Ui, order: seq<Name>, look: Look)
    requires TidyUi(room, ui) && ShortDurations(room, look.durText) && 0 < look.width <= room.columns
    ensures AllShort(room.columns, BottomZone(ui, order, look))
  {
    hide AllShort, TidyUi, ShortDurations, JobLines;
    if order == [] {
      NoLines(room.columns);
    } else {
      ZoneShort(room, ui, order[..|order| - 1], look);
      JobLinesShort(room, ui, order[|order| - 1], look);
      BothShort(room.columns, BottomZone(ui, order[..|order| - 1], look), JobLines(ui, order[|order| - 1], look));
    }
  }

  /** A tidy record is drawn with one row for each line, and without control characters. */
  lemma ZoneFits(room: Room, ui: Ui, order: seq<Name>, look: Look)
    requires TidyUi(room, ui) && ShortDurations(room, look.durText) && 0 < look.width <= room.columns
    ensures Flat(room.columns, BottomZone(ui, order, look)) && AllPlain(BottomZone(ui, order, look))
  {
    hide BottomZone, TidyUi, ShortDurations;
    ZoneShort(room, ui, order, look);
    ShortIsFlat(room.columns, BottomZone(ui, order, look));
  }

  lemma {:induction false} FailedTailsPlain(steps: map<string, StepState>, keys: seq<string>, job: Name)
    requires forall k :: k in steps ==> TidyStep(steps[k])
    ensures AllPlain(FailedTails(steps, keys, job))
  {
    hide Clean, Plain;
    Marks();
    if keys == [] {
    } else {
      var key := keys[|keys| - 1];
      FailedTailsPlain(steps, keys[..|keys| - 1], job);
      if key in steps {
        PrefixedPlain("   \U{2502} ", steps[key].logLines);
        BothPlain(FailedTails(steps, keys[..|keys| - 1], job), Prefixed("   \U{2502} ", steps[key].logLines));
      }
    }
  }

  lemma BothPlain(a: seq<string>, b: seq<string>)
    ensures AllPlain(a + b) <==> AllPlain(a) && AllPlain(b)
  {
    hide Plain;
    assert forall l :: l in a + b <==> l in a || l in b;
  }

  lemma PrefixedPlain(prefix: string, lines: seq<string>)
    requires Plain(prefix) && AllClean(lines)
    ensures AllPlain(Prefixed(prefix, lines))
  {
    hide Plain, Clean;
    CleanArePlain(lines);
    forall i | 0 <= i < |lines| ensures Plain(prefix + lines[i]) {
      assert lines[i] in lines;
      PlainAppend(prefix, lines[i]);
    }
  }

  lemma Marks()
    ensures Plain(" \U{2713} ") && Plain(" \U{2717} ") && Plain(" \U{2298} ") && Plain(" \U{2297} ")
    ensures Plain(" ") && Plain(" \U{2014} ") && Plain(" skipped") && Plain("   \U{2502} ") && Plain("")
  {
  }

  lemma PlainJoin(a: string, b: string, c: string, d: string)
    ensures Plain(a + b + c + d) <==> Plain(a) && Plain(b) && Plain(c) && Plain(d)
  {
    hide Plain;
    PlainAppend(a, b);
    PlainAppend(a + b, c);
    PlainAppend(a + b + c, d);
  }

  lemma ErrorPlain(errMsg: string)
    requires Plain(errMsg)
    ensures Plain(if errMsg != "" then " \U{2014} " + errMsg else "")
  {
    hide Plain;
    Marks();
    PlainAppend(" \U{2014} ", errMsg);
  }

  lemma FailedLinePlain(js: JobState, text: string)
    requires Plain(js.name) && Plain(js.errMsg) && Plain(text)
    ensures Plain(" \U{2717} " + js.name + " " + text + if js.errMsg != "" then " \U{2014} " + js.errMsg else "")
  {
    hide Plain;
    Marks();
    PlainJoin(" \U{2717} ", js.name, " ", text);
    ErrorPlain(js.errMsg);
    PlainAppend(" \U{2717} " + js.name + " " + text, if js.errMsg != "" then " \U{2014} " + js.errMsg else "");
  }

  lemma StaticPlain(room: Room, ui: Ui, name: Name, look: Look)
    requires TidyUi(room, ui) && ShortDurations(room, look.durText) && name in ui.jobs
    ensures AllPlain(StaticLines(ui, ui.jobs[name], look))
  {
    hide Plain, Clean, FailedTails, Commas;
    var js := ui.jobs[name];
    assert TidyJob(room, name, js);
    CleanIsPlain(js.name);
    CleanIsPlain(look.durText(js.duration));
    Marks();
    match js.status
    case Success => PlainJoin(" \U{2713} ", js.name, " ", look.durText(js.duration));
    case Failed =>
      FailedLinePlain(js, look.durText(js.duration));
      FailedTailsPlain(ui.steps, ui.stepOrder, js.name);
      BothPlain([" \U{2717} " + js.name + " " + look.durText(js.duration)
                 + if js.errMsg != "" then " \U{2014} " + js.errMsg else ""],
        FailedTails(ui.steps, ui.stepOrder, js.name));
    case Skipped =>
      PlainAppend(" \U{2298} ", js.name);
      PlainAppend(" \U{2298} " + js.name, " skipped");
    case Canceled => PlainAppend(" \U{2297} ", js.name);
    case _ =>
  }

  /** The promoted lines of a tidy record hold no control character but line feeds. */
  lemma {:induction false} PromotedPlain(room: Room, ui: Ui, order: seq<Name>, look: Look)
    requires TidyUi(room, ui) && ShortDurations(room, look.durText)
    ensures AllPlain(PromotedLines(ui, order, look))
  {
    hide AllPlain, TidyUi, ShortDurations, StaticLines;
    if order == [] {
      NoLines(0);
    } else {
      var name := order[|order| - 1];
      PromotedPlain(room, ui, order[..|order| - 1], look);
      if Promotable(ui, name) {
        StaticPlain(room, ui, name, look);
        BothPlain(PromotedLines(ui, order[..|order| - 1], look), StaticLines(ui, ui.jobs[name], look));
      } else {
        assert PromotedLines(ui, order[..|order| - 1], look) + [] == PromotedLines(ui, order[..|order| - 1], look);
      }
    }
  }

  lemma HeaderClean(title: string)
    ensures Clean(Header(title)) && Header(title) != [] && Header(title)[0] == '['
  {
    hide Clean, Quoted;
    QuotedClean(title);
    HeaderStart();
    CleanAppend("[+] Running pipeline ", Quoted(title));
  }

  lemma HeaderStart()
    ensures Clean("[+] Running pipeline ")
  {
  }
  // --------------------------------------------------------- whole histories

  predicate Restarts(input: Input, key: string) {
    input.Handle? && input.event.StepStarted? && StepKey(input.event.job, input.event.step) == key
  }

  predicate Logs(input: Input, key: string) {
    input.Handle? && input.event.StepLog? && StepKey(input.event.job, input.event.step) == key
  }

  /** All lines logged for a key by these inputs. */
  function LoggedLines(inputs: seq<Input>, key: string): seq<string> {
    if inputs == [] then []
    else
      var last := inputs[|inputs| - 1];
      LoggedLines(inputs[..|inputs| - 1], key) + if Logs(last, key) then LinesOf(last.event.data) else []
  }

  lemma LastNAbsorbs<T>(n: nat, s: seq<T>, t: seq<T>)
    ensures LastN(n, LastN(n, s) + t) == LastN(n, s + t)
  {
  }

  /** Capped log tail: however many StepLog events have come since the step's StepStarted, and whatever
      came between them, the kept lines are the last ten of all that was logged. */
  lemma {:induction false} CappedLogTail(ui: Ui, job: Name, step: string, inputs: seq<Input>)
    requires forall i :: 0 <= i < |inputs| ==> !Restarts(inputs[i], StepKey(job, step))
    ensures var key := StepKey(job, step); var end := AfterInputs(AfterEvent(ui, StepStarted(job, step)), inputs);
      key in end.steps && end.steps[key].logLines == LastN(MAX_FAILED_LOG_LINES, LoggedLines(inputs, key))
  {
    hide LinesOf, StepKey, AfterRedraw, AfterInput, Restarts;
    var start, key := AfterEvent(ui, StepStarted(job, step)), StepKey(job, step);
    if inputs == [] {
      StartedEmpty(ui, job, step);
    } else {
      var k := |inputs| - 1;
      CappedLogTail(ui, job, step, inputs[..k]);
      StepAfter(AfterInputs(start, inputs[..k]), inputs[k], key);
      if Logs(inputs[k], key) {
        LastNAbsorbs(MAX_FAILED_LOG_LINES, LoggedLines(inputs[..k], key), LinesOf(inputs[k].event.data));
      } else {
        assert LoggedLines(inputs[..k], key) + [] == LoggedLines(inputs[..k], key);
      }
    }
  }

  lemma StartedEmpty(ui: Ui, job: Name, step: string)
    ensures var start := AfterEvent(ui, StepStarted(job, step));
      StepKey(job, step) in start.steps && start.steps[StepKey(job, step)].logLines == []
  {
  }

  /** What one input does to the log lines of a key that is already known. */
  lemma StepAfter(ui: Ui, input: Input, key: string)
    requires key in ui.steps && !Restarts(input, key)
    requires |ui.steps[key].logLines| <= MAX_FAILED_LOG_LINES
    ensures key in AfterInput(ui, input).steps
    ensures AfterInput(ui, input).steps[key].logLines
         == if Logs(input, key) then LastN(MAX_FAILED_LOG_LINES, ui.steps[key].logLines + LinesOf(input.event.data))
            else ui.steps[key].logLines
  {
    hide LinesOf, StepKey;
    if input.Handle? && input.event.StepLog? && LinesOf(input.event.data) == [] {
      assert ui.steps[key].logLines + [] == ui.steps[key].logLines;
    }
  }

  lemma NotedKeepsPromoted(ui: Ui, e: Event)
    ensures Noted(ui, e).promoted == ui.promoted
  {
    hide LinesOf, StepKey, LastN;
  }

  lemma InputKeepsPromoted(ui: Ui, input: Input)
    ensures ui.promoted <= AfterInput(ui, input).promoted
  {
    hide Noted, ToPromote, Listed;
    if input.Handle? { NotedKeepsPromoted(ui, input.event); }
  }

  lemma {:induction false} StaysPromoted(ui: Ui, inputs: seq<Input>)
    ensures ui.promoted <= AfterInputs(ui, inputs).promoted
  {
    hide AfterInput;
    if inputs == [] {
    } else {
      StaysPromoted(ui, inputs[..|inputs| - 1]);
      InputKeepsPromoted(AfterInputs(ui, inputs[..|inputs| - 1]), inputs[|inputs| - 1]);
    }
  }

  /** A job that has been promoted is never promoted again, neither by a refresh nor by an event, and
      even if it starts anew. */
  lemma PromotedOnce(ui: Ui, inputs: seq<Input>, e: Event, n: Name)
    requires n in ui.promoted
    ensures var now := AfterInputs(ui, inputs); var noted := Noted(now, e);
      && n in now.promoted
      && n !in ToPromote(now, now.jobOrder)
      && n !in ToPromote(noted, noted.jobOrder)
  {
    hide Noted, ToPromote, AfterInputs;
    var now := AfterInputs(ui, inputs);
    StaysPromoted(ui, inputs);
    NotedKeepsPromoted(now, e);
    PromotesFrom(now, now.jobOrder);
    PromotesFrom(Noted(now, e), Noted(now, e).jobOrder);
  }

  /** After a redraw every job on record is either in the bottom zone or has been promoted. */
  lemma {:induction false} NoJobIsLost(ui: Ui, order: seq<Name>, n: Name)
    requires n in order && n in ui.jobs && !IsActive(ui.jobs[n].status)
    ensures n in ui.promoted || n in ToPromote(ui, order)
  {
    var k := |order| - 1;
    if n == order[k] {
    } else {
      assert order == order[..k] + [order[k]];
      NoJobIsLost(ui, order[..k], n);
    }
  }
}
