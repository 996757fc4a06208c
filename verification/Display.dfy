/** The handler behind the progress display in terminal mode: it records every event, writes what a redraw
    consists of, and keeps the screen showing the static lines followed by a fresh bottom zone. */
module Display {
  import opened Names
  import opened Model
  import opened Texts
  import opened Terminals
  import opened Progress
  import opened Rendering
  import opened Histories

  class ProgressHandler {
    const out: Terminal
    const durText: nat -> string
    var pipelineName: string
    var jobs: map<Name, JobState>
    var jobOrder: seq<Name>
    var steps: map<string, StepState>
    var stepOrder: seq<string>
    var printedJobHeaders: set<Name>
    var bottomLines: nat
    var finished: bool
    ghost var statics: seq<string>      // every static line printed so far
    ghost var bottom: seq<string>       // the bottom zone as last drawn
    ghost var promotions: seq<Name>     // the jobs promoted so far

    constructor (out: Terminal, durText: nat -> string)
      requires out.Ready() && out.View() == Screen(out.width, [], false)
      ensures this.out == out && this.durText == durText && Consistent() && Drawable() && OnScreen()
      ensures View() == Ui("", map[], [], map[], [], {}, false) && statics == [] && bottom == [] && promotions == []
    {
      this.out, this.durText, pipelineName := out, durText, "";
      jobs, jobOrder, steps, stepOrder := map[], [], map[], [];
      printedJobHeaders, bottomLines, finished := {}, 0, false;
      statics, bottom, promotions := [], [], [];
    }

    function View(): Ui
      reads this
    {
      Ui(pipelineName, jobs, jobOrder, steps, stepOrder, printedJobHeaders, finished)
    }

    ghost predicate Consistent()
      reads this
    {
      && Distinct(jobOrder) && (forall n :: n in jobOrder <==> n in jobs)
      && Distinct(stepOrder) && (forall k :: k in stepOrder <==> k in steps)
      && Distinct(promotions) && (forall n :: n in promotions <==> n in printedJobHeaders)
      && |bottom| == bottomLines && Indented(bottom)
    }

    /** The screen shows the static lines followed by the bottom zone, nothing else, and no text in
        it held a control character other than a line feed. */
    ghost predicate OnScreen()
      reads this, out
    {
      out.Ready() && out.View() == Screen(out.width, Rows(out.width, statics) + Rows(out.width, bottom), false)
    }

    /** The cursor is where the next redraw expects it, below a zone of at least `bottomLines` rows. */
    ghost predicate Drawable()
      reads this, out
    {
      out.Ready() && bottomLines <= out.row
    }

    /** Nothing on record can make a zone line leave its row or disturb the terminal. */
    ghost predicate Tidy(room: Room)
      reads this
    {
      room.columns == out.width && TidyUi(room, View()) && ShortDurations(room, durText) && Flat(out.width, bottom)
    }

    method Note(e: Event)
      requires Consistent()
      modifies this`pipelineName, this`jobs, this`jobOrder, this`steps, this`stepOrder, this`finished
      ensures Consistent() && View() == Noted(old(View()), e)
    {
      hide Indented, Distinct, TrimNewlines, SplitLines, StepKey;
      match e
      case PipelineStarted(name, id) =>
        pipelineName := name;
        if pipelineName == "" { pipelineName := id; }
      case PipelineFinished => finished := true;
      case JobStarted(job, at) =>
        var js := JobState(job, Running, at, 0, "", []);
        if job in jobs { js := js.(dependsOn := jobs[job].dependsOn); }
        PutJob(job, js);
      case JobFinished(job, status, duration, error) =>
        if job in jobs { PutJob(job, jobs[job].(status := status, duration := duration, errMsg := error)); }
      case JobSkipped(job) => PutJob(job, JobState(job, Skipped, 0, 0, "", []));
      case StepStarted(job, step) => PutStep(StepKey(job, step), StepState(job, step, Running, []));
      case StepFinished(job, step, status) =>
        var key := StepKey(job, step);
        var ss := StepState(job, step, Pending, []);
        if key in steps { ss := steps[key]; }
        PutStep(key, ss.(status := status));
      case StepLog(job, step, data) =>
        var key := StepKey(job, step);
        var ss := StepState(job, step, Running, []);
        if key in steps { ss := steps[key]; }
        var text := TrimNewlines(data);
        if text != "" {
          var logLines := ss.logLines + SplitLines(text);
          if |logLines| > MAX_FAILED_LOG_LINES { logLines := logLines[|logLines| - MAX_FAILED_LOG_LINES..]; }
          ss := ss.(logLines := logLines);
        }
        PutStep(key, ss);
    }

    method PutJob(name: Name, js: JobState)
      requires Consistent()
      modifies this`jobs, this`jobOrder
      ensures Consistent() && View() == WithJob(old(View()), name, js)
    {
      if name !in jobs { jobOrder := jobOrder + [name]; }
      jobs := jobs[name := js];
    }

    method PutStep(key: string, ss: StepState)
      requires Consistent()
      modifies this`steps, this`stepOrder
      ensures Consistent() && View() == WithStep(old(View()), key, ss)
    {
      if key !in steps { stepOrder := stepOrder + [key]; }
      steps := steps[key := ss];
    }

    /** Records a job's dependency list ahead of its events; a job not yet known is pending. Nothing is drawn. */
    method SetJobDependsOn(jobName: Name, deps: seq<Name>)
      requires Consistent()
      modifies this`jobs, this`jobOrder
      ensures Consistent() && View() == WithDeps(old(View()), jobName, deps)
      ensures jobs.Keys == old(jobs).Keys + {jobName} && jobs[jobName].dependsOn == deps
      ensures jobs[jobName].status == if jobName in old(jobs) then old(jobs)[jobName].status else Pending
      ensures forall n :: n in old(jobs) && n != jobName ==> jobs[n] == old(jobs)[n]
      ensures jobOrder == if jobName in old(jobs) then old(jobOrder) else old(jobOrder) + [jobName]
    {
      var js := JobState(jobName, Pending, 0, 0, "", []);
      if jobName in jobs { js := jobs[jobName]; }
      PutJob(jobName, js.(dependsOn := deps));
    }

    /** CUU, then EL and a line feed for every line of the zone, then CUU again. */
    method ClearBottomZone()
      requires Drawable()
      modifies this`bottomLines, out
      ensures out.Ready() && bottomLines == 0
      ensures out.View() == Cleared(old(out.View()), old(bottomLines))
    {
      if bottomLines <= 0 {
        assert Cleared(out.View(), 0) == out.View();
        return;
      }
      out.CursorUp(bottomLines);
      ghost var top := out.row;
      for i := 0 to bottomLines
        invariant out.row == top + i && out.col == 0 && out.foreign == old(out.foreign)
        invariant bottomLines == old(bottomLines)
        invariant |out.rows| == |old(out.rows)| && out.rows[..top] == old(out.rows)[..top]
        invariant forall r :: top <= r < top + i ==> out.rows[r] == ""
        invariant forall r :: top + bottomLines <= r < |out.rows| ==> out.rows[r] == ""
      {
        out.EraseLine();
        out.LineFeed();
      }
      out.CursorUp(bottomLines);
      bottomLines := 0;
      assert out.View().text == old(out.View()).text[..top];
    }

    method PrintStaticJobLine(js: JobState, ghost look: Look)
      requires out.Ready() && Consistent() && look.durText == durText
      modifies out
      ensures out.Ready() && out.View() == Written(old(out.View()), StaticLines(View(), js, look))
    {
      hide Consistent, FailedTails, Written;
      match js.status
      case Success => out.PrintLine(" \U{2713} " + js.name + " " + durText(js.duration));
      case Failed =>
        var line := " \U{2717} " + js.name + " " + durText(js.duration);
        if js.errMsg != "" {
          line := line + (" \U{2014} " + js.errMsg);
        } else {
          assert line + "" == line;
        }
        out.PrintLine(line);
        PrintFailedTails(js.name);
        WrittenTwice(old(out.View()), [line], FailedTails(steps, stepOrder, js.name));
      case Skipped => out.PrintLine(" \U{2298} " + js.name + " skipped");
      case Canceled => out.PrintLine(" \U{2297} " + js.name);
      case _ => WrittenNothing(out.View());
    }

    method PrintFailedTails(jobName: Name)
      requires out.Ready() && Consistent()
      modifies out
      ensures out.Ready() && out.View() == Written(old(out.View()), FailedTails(steps, stepOrder, jobName))
    {
      hide FailedTails, Written;
      FailedTailsNone(steps, jobName);
      WrittenNothing(out.View());
      assert stepOrder[..0] == [];
      for i := 0 to |stepOrder|
        invariant out.Ready()
        invariant out.View() == Written(old(out.View()), FailedTails(steps, stepOrder[..i], jobName))
      {
        assert stepOrder[i] in stepOrder;
        FailedTailsNext(steps, stepOrder, i, jobName);
        var ss := steps[stepOrder[i]];
        ghost var shown := FailedTails(steps, stepOrder[..i], jobName);
        if ss.jobName == jobName && ss.status == Failed && |ss.logLines| > 0 {
          WrittenTwice(old(out.View()), shown, Prefixed("   \U{2502} ", ss.logLines));
          out.PrintLines(Prefixed("   \U{2502} ", ss.logLines));
        } else {
          assert shown + [] == shown;
        }
      }
      assert stepOrder[..|stepOrder|] == stepOrder;
    }

    /** Prints a finished job unless that has been done already. */
    method PromoteOne(jobName: Name, ghost look: Look)
      requires out.Ready() && Consistent() && look.durText == durText && jobName in jobs
      modifies this`printedJobHeaders, this`statics, this`promotions, out
      ensures Consistent() && out.Ready()
      ensures var ui := old(View());
        if Promotable(ui, jobName) then
          && printedJobHeaders == ui.promoted + {jobName} && promotions == old(promotions) + [jobName]
          && out.View() == Written(old(out.View()), StaticLines(ui, jobs[jobName], look))
          && statics == old(statics) + StaticLines(ui, jobs[jobName], look)
        else
          printedJobHeaders == ui.promoted && promotions == old(promotions)
          && out.View() == old(out.View()) && statics == old(statics)
    {
      hide StaticLines, Written;
      var js := jobs[jobName];
      if js.status == Running || js.status == Pending { return; }
      if jobName in printedJobHeaders { return; }
      ghost var ui := View();
      printedJobHeaders := printedJobHeaders + {jobName};
      promotions := promotions + [jobName];
      SameStatics(ui, View(), js, look);
      PrintStaticJobLine(js, look);
      statics := statics + StaticLines(ui, js, look);
    }

    /** Prints the jobs that have finished since the last redraw, once each. */
    method PromoteFinished(ghost look: Look)
      requires out.Ready() && Consistent() && look.durText == durText
      modifies this`printedJobHeaders, this`statics, this`promotions, out
      ensures Consistent() && View() == AfterRedraw(old(View()))
      ensures out.Ready() && out.View() == Written(old(out.View()), PromotedLines(old(View()), jobOrder, look))
      ensures statics == old(statics) + PromotedLines(old(View()), jobOrder, look)
      ensures promotions == old(promotions) + ToPromote(old(View()), jobOrder)
    {
      hide StaticLines, Promotable, PromotedLines, ToPromote, Written;
      ghost var ui := View();
      WrittenNothing(out.View());
      NothingToPromote(ui, look);
      assert jobOrder[..0] == [];
      for i := 0 to |jobOrder|
        invariant Consistent() && out.Ready()
        invariant printedJobHeaders == ui.promoted + Listed(ToPromote(ui, jobOrder[..i]))
        invariant promotions == old(promotions) + ToPromote(ui, jobOrder[..i])
        invariant out.View() == Written(old(out.View()), PromotedLines(ui, jobOrder[..i], look))
        invariant statics == old(statics) + PromotedLines(ui, jobOrder[..i], look)
      {
        var jobName := jobOrder[i];
        assert jobName in jobOrder;
        PromoteNext(ui, View(), jobOrder, i, look);
        ghost var shown := PromotedLines(ui, jobOrder[..i], look);
        if Promotable(ui, jobName) {
          WrittenTwice(old(out.View()), shown, StaticLines(View(), jobs[jobName], look));
        } else {
          assert shown + [] == shown;
        }
        PromoteOne(jobName, look);
      }
      assert jobOrder[..|jobOrder|] == jobOrder;
    }

    /** Collects the lines of the bottom zone; their number is the line count. */
    method BuildBottom(now: nat, width: int) returns (lines: seq<string>)
      requires Consistent()
      ensures lines == BottomZone(View(), jobOrder, Look(now, width, durText))
    {
      ghost var look := Look(now, width, durText);
      lines := [];
      for i := 0 to |jobOrder|
        invariant lines == BottomZone(View(), jobOrder[..i], look)
      {
        assert jobOrder[..i + 1][..i] == jobOrder[..i];
        assert jobOrder[i] in jobOrder;
        var jobName := jobOrder[i];
        var js := jobs[jobName];
        match js.status
        case Running =>
          var tails := BuildTails(jobName, width);
          lines := lines + ([" => " + jobName + " " + durText(Elapsed(js.startedAt, now))] + tails);
        case Pending =>
          var waitFor := WaitingDeps(jobs, js.dependsOn);
          if |waitFor| > 0 {
            lines := lines + [" => " + jobName + " (waiting for " + Commas(waitFor) + ")"];
          } else {
            lines := lines + [" => " + jobName];
          }
        case _ =>
      }
      assert jobOrder[..|jobOrder|] == jobOrder;
    }

    method BuildTails(jobName: Name, width: int) returns (lines: seq<string>)
      requires Consistent()
      ensures lines == JobTails(steps, stepOrder, jobName, width)
    {
      lines := [];
      for i := 0 to |stepOrder|
        invariant lines == JobTails(steps, stepOrder[..i], jobName, width)
      {
        assert stepOrder[..i + 1][..i] == stepOrder[..i];
        assert stepOrder[i] in stepOrder;
        var ss := steps[stepOrder[i]];
        if ss.jobName == jobName {
          var tail := BuildTail(ss, width);
          lines := lines + tail;
        }
      }
      assert stepOrder[..|stepOrder|] == stepOrder;
    }

    method BuildTail(ss: StepState, width: int) returns (lines: seq<string>)
      ensures lines == TailLines(ss, width)
    {
      var tail := ss.logLines;
      if |tail| > MAX_TAIL_LINES { tail := tail[|tail| - MAX_TAIL_LINES..]; }
      lines := [];
      for k := 0 to |tail|
        invariant |lines| == k && forall m :: 0 <= m < k ==> lines[m] == TailLine(ss.stepName, tail[m], width)
      {
        var full := TruncateANSI("    [" + ss.stepName + "] " + tail[k], width);
        lines := lines + [full];
      }
    }

    /** Replaces the last `bottomLines` rows above the cursor by the newly promoted jobs and a fresh
        bottom zone, and touches no row above them. */
    method RedrawBottomZone(now: nat, width: int)
      requires Consistent() && Drawable()
      modifies this`printedJobHeaders, this`statics, this`promotions, this`bottom, this`bottomLines, out
      ensures Consistent() && Drawable() && View() == AfterRedraw(old(View()))
      ensures bottom == BottomZone(View(), jobOrder, Look(now, width, durText))
      ensures statics == old(statics) + PromotedLines(old(View()), jobOrder, Look(now, width, durText))
      ensures promotions == old(promotions) + ToPromote(old(View()), jobOrder)
      ensures out.View() == Written(Cleared(old(out.View()), old(bottomLines)),
                                    PromotedLines(old(View()), jobOrder, Look(now, width, durText)) + bottom)
    {
      hide BottomZone, PromotedLines, ToPromote, AfterRedraw, Written, Cleared, Distinct, Indented;
      ghost var promoted := PromotedLines(View(), jobOrder, Look(now, width, durText));
      ClearBottomZone();
      bottom := [];
      EmptyIsIndented();
      PromoteFinished(Look(now, width, durText));
      var lines := BuildBottom(now, width);
      BottomIsIndented(View(), jobOrder, Look(now, width, durText));
      WrittenTwice(Cleared(old(out.View()), old(bottomLines)), promoted, lines);
      if |lines| > 0 {
        out.PrintLines(lines);
      } else {
        assert promoted + lines == promoted;
      }
      bottomLines := |lines|;
      bottom := lines;
      RoomBelow(Cleared(old(out.View()), old(bottomLines)), promoted, lines);
    }

    /** Records the event and redraws. The static lines only grow; after a redraw the bottom zone is a
        full rendering of the new state. An exact screen stays exact exactly when no header is printed
        below a shown zone, no line of a zone that is to be cleared takes more than one row, and no
        control character other than a line feed is printed. */
    method HandleEvent(e: Event, now: nat, width: int)
      requires Consistent() && Drawable()
      modifies this, out
      ensures Consistent() && Drawable() && View() == AfterEvent(old(View()), e)
      ensures RecordsJob(old(jobs), e, jobs)
      ensures e.PipelineStarted? ==>
        exists literal :: IsLiteralFor(literal, if e.name == "" then e.id else e.name)
          && old(statics) + ["[+] Running pipeline " + literal] <= statics
      ensures statics == old(statics) + HeaderOf(e, pipelineName)
                         + (if finished then []
                            else PromotedLines(Noted(old(View()), e), jobOrder, Look(now, width, durText)))
      ensures !finished ==> FinishShown(old(View()), e, Look(now, width, durText), statics[|old(statics)|..])
      ensures promotions == old(promotions) + (if finished then [] else ToPromote(Noted(old(View()), e), jobOrder))
      ensures bottom == if finished then old(bottom) else BottomZone(View(), jobOrder, Look(now, width, durText))
      ensures old(OnScreen()) ==>
        (OnScreen() <==>
          && !(e.PipelineStarted? && old(bottomLines) > 0)
          && AllPlain(statics[|old(statics)|..])
          && (finished || (Flat(out.width, old(bottom)) && AllPlain(bottom))))
    {
      hide AfterRedraw, BottomZone, PromotedLines, ToPromote, Noted, Indented, Header,
           Written, Cleared, Rows, Flat, AllPlain, RecordsJob, FinishShown, IsLiteralFor, Quoted;
      ghost var ui := View();
      Receive(e);
      ghost var header := HeaderOf(e, pipelineName);
      HeaderFits(e, pipelineName);
      if e.PipelineStarted? { HeaderTells(ui, e); }
      if finished {
        assert statics[|old(statics)|..] == header;
        FinishedExactly(out.width, old(statics), old(bottom), header);
        assert statics == old(statics) + header + [];
      } else {
        ghost var promoted := PromotedLines(View(), jobOrder, Look(now, width, durText));
        RedrawBottomZone(now, width);
        assert statics[|old(statics)|..] == header + promoted;
        RedrawShowsFinish(ui, e, Look(now, width, durText), header);
        RedrawnExactly(out.width, old(statics), old(bottom), header, promoted, bottom);
      }
    }

    /** The switch of HandleEvent; PipelineStarted prints the header where the cursor is. */
    method Receive(e: Event)
      requires Consistent() && Drawable()
      modifies this`pipelineName, this`jobs, this`jobOrder, this`steps, this`stepOrder, this`finished, this`statics, out
      ensures Consistent() && Drawable() && View() == Noted(old(View()), e)
      ensures RecordsJob(old(jobs), e, jobs)
      ensures statics == old(statics) + HeaderOf(e, pipelineName)
      ensures out.View() == Written(old(out.View()), HeaderOf(e, pipelineName))
    {
      hide Noted, Header, Written, Rows, RecordsJob;
      NotedRecords(View(), e);
      Note(e);
      if e.PipelineStarted? {
        out.PrintLine(Header(pipelineName));
        statics := statics + [Header(pipelineName)];
        WrittenGrows(old(out.View()), [Header(pipelineName)]);
      } else {
        WrittenNothing(out.View());
      }
    }

    /** The periodic redraw of the live refresh. */
    method Tick(now: nat, width: int)
      requires Consistent() && Drawable()
      modifies this, out
      ensures Consistent() && Drawable() && View() == AfterInput(old(View()), Refresh)
      ensures if old(!finished && exists n :: n in jobs && jobs[n].status == Running) then
                && bottom == BottomZone(View(), jobOrder, Look(now, width, durText))
                && statics == old(statics) + PromotedLines(old(View()), jobOrder, Look(now, width, durText))
                && promotions == old(promotions) + ToPromote(old(View()), jobOrder)
                && (old(OnScreen()) ==>
                      (OnScreen() <==>
                         && Flat(out.width, old(bottom))
                         && AllPlain(statics[|old(statics)|..]) && AllPlain(bottom)))
              else
                && bottom == old(bottom) && statics == old(statics) && promotions == old(promotions)
                && out.View() == old(out.View()) && out.Ready() == old(out.Ready())
    {
      hide AfterRedraw, BottomZone, PromotedLines, ToPromote, Written, Cleared, Rows, Flat, AllPlain;
      if !finished && exists n :: n in jobs && jobs[n].status == Running {
        ghost var promoted := PromotedLines(View(), jobOrder, Look(now, width, durText));
        RedrawBottomZone(now, width);
        assert statics[|old(statics)|..] == [] + promoted;
        assert statics == old(statics) + [] + promoted;
        WrittenNothing(old(out.View()));
        RedrawnExactly(out.width, old(statics), old(bottom), [], promoted, bottom);
      }
    }

    /** One call of the handler. */
    method HandleInput(input: Input, now: nat, width: int, ghost room: Room)
      requires Consistent() && Drawable()
      modifies this, out
      ensures Consistent() && Drawable() && View() == AfterInput(old(View()), input)
      ensures old(statics) <= statics && old(promotions) <= promotions
      ensures input.Handle? && !finished ==> bottom == BottomZone(View(), jobOrder, Look(now, width, durText))
      ensures input.Depends? ==> bottomLines == old(bottomLines)
      ensures old(OnScreen() && Tidy(room)) && TidyInput(room, input) && 0 < width <= room.columns ==>
        (!(Heads(input) && old(bottomLines) > 0) ==> OnScreen() && Tidy(room))
    {
      hide AfterRedraw, BottomZone, PromotedLines, ToPromote, Noted, Rows, Flat, AllPlain, TidyUi, ShortDurations,
           TidyEvent, WithDeps, HeaderOf, Refreshes;
      ghost var before, look := View(), Look(now, width, durText);
      ghost var tidy := Tidy(room) && TidyInput(room, input) && 0 < width <= room.columns;
      if tidy { TidyAfter(room, before, input); }
      match input
      case Handle(e) =>
        HandleEvent(e, now, width);
        if tidy {
          TidyNoted(room, before, e);
          TidyLines(room, Noted(before, e), e, pipelineName, jobOrder, look, old(statics), statics, finished);
          ZoneFits(room, View(), jobOrder, look);
        }
      case Refresh =>
        Tick(now, width);
        if tidy {
          PromotedPlain(room, before, jobOrder, look);
          ZoneFits(room, View(), jobOrder, look);
        }
      case Depends(job, deps) =>
        SetJobDependsOn(job, deps);
    }

    /** Handles what the engine or the server's stream, the ticker and the caller bring, in whatever order
        they get the lock. What has become static is never rewritten and no job is promoted twice. If
        names, errors and logs are tidy, and PipelineStarted comes before anything has been drawn, the
        screen is exact after every call. */
    method HandleAll(inputs: seq<Input>, looks: seq<(nat, int)>, ghost room: Room)
      requires Consistent() && Drawable() && |looks| == |inputs|
      modifies this, out
      ensures Consistent() && Drawable() && View() == AfterInputs(old(View()), inputs)
      ensures old(statics) <= statics && old(promotions) <= promotions
      ensures inputs != [] && inputs[|inputs| - 1].Handle? && !finished ==>
        bottom == BottomZone(View(), jobOrder, Look(looks[|inputs| - 1].0, looks[|inputs| - 1].1, durText))
      ensures old(OnScreen() && Tidy(room)) && Orderly(room, inputs, looks, old(bottomLines)) ==>
        OnScreen() && Tidy(room)
    {
      hide AfterInput, BottomZone, Noted, Indented, TidyUi, TidyInput, Rows, ShortDurations, Flat;
      for i := 0 to |inputs|
        invariant Consistent() && Drawable() && View() == AfterInputs(old(View()), inputs[..i])
        invariant old(statics) <= statics && old(promotions) <= promotions
        invariant (forall k :: 0 <= k < i ==> inputs[k].Depends?) ==> bottomLines == old(bottomLines)
        invariant i > 0 && inputs[i - 1].Handle? && !finished ==>
          bottom == BottomZone(View(), jobOrder, Look(looks[i - 1].0, looks[i - 1].1, durText))
        invariant old(OnScreen() && Tidy(room)) && Orderly(room, inputs, looks, old(bottomLines)) ==>
          OnScreen() && Tidy(room)
      {
        assert inputs[..i + 1][..i] == inputs[..i];
        HandleInput(inputs[i], looks[i].0, looks[i].1, room);
      }
      assert inputs[..|inputs|] == inputs;
    }
  }

  predicate Heads(input: Input) {
    input.Handle? && input.event.PipelineStarted?
  }

  /** Tidy inputs and widths of the screen or less, with PipelineStarted only before anything has been drawn. */
  ghost predicate Orderly(room: Room, inputs: seq<Input>, looks: seq<(nat, int)>, bottomLines: nat)
    requires |looks| == |inputs|
  {
    forall i :: 0 <= i < |inputs| ==>
      && TidyInput(room, inputs[i]) && 0 < looks[i].1 <= room.columns
      && (Heads(inputs[i]) ==> bottomLines == 0 && forall k :: 0 <= k < i ==> inputs[k].Depends?)
  }

  // ------------------------------------------------------- when it stays exact

  lemma EmptyIsIndented()
    ensures Indented([])
  {
  }

  lemma WrittenGrows(screen: Screen, lines: seq<string>)
    ensures |Written(screen, lines).text| >= |screen.text| + |lines|
  {
    RowCount(screen.width, lines);
  }

  lemma RoomBelow(screen: Screen, promoted: seq<string>, lines: seq<string>)
    ensures |Written(screen, promoted + lines).text| >= |lines|
  {
    hide Written;
    WrittenGrows(screen, promoted + lines);
  }

  /** A header has no control characters and does not start like a zone line. */
  ghost predicate IsHeader(header: seq<string>) {
    header == [] || (|header| == 1 && Clean(header[0]) && header[0] != [] && header[0][0] == '[')
  }

  lemma HeaderFits(e: Event, title: string)
    ensures IsHeader(HeaderOf(e, title)) && (HeaderOf(e, title) == [] <==> !e.PipelineStarted?)
  {
    hide Header, Clean;
    HeaderClean(title);
  }

  lemma HeaderTells(ui: Ui, e: Event)
    requires e.PipelineStarted?
    ensures HeaderOf(e, Noted(ui, e).title)
         == ["[+] Running pipeline " + Quoted(if e.name == "" then e.id else e.name)]
    ensures IsLiteralFor(Quoted(if e.name == "" then e.id else e.name), if e.name == "" then e.id else e.name)
  {
    hide Quoted, IsLiteralFor;
    QuotedReads(if e.name == "" then e.id else e.name);
  }

  lemma HeaderRows(w: Columns, header: seq<string>)
    requires IsHeader(header)
    ensures (Rows(w, header) == [] <==> header == []) && AllPlain(header)
    ensures header != [] ==> Rows(w, header)[0] != [] && Rows(w, header)[0][0] == '['
  {
    hide IsControl, Rows;
    RowCount(w, header);
    CleanArePlain(header);
    if header == [] {
      NoRows(w);
    } else {
      FirstOfRows(w, header);
    }
  }

  lemma NoRows(w: Columns)
    ensures Rows(w, []) == []
  {
  }

  lemma ZoneRows(w: Columns, zone: seq<string>)
    requires Indented(zone)
    ensures |Rows(w, zone)| >= |zone| && (Rows(w, zone) == [] <==> zone == [])
    ensures zone != [] ==> Rows(w, zone)[0] != [] && Rows(w, zone)[0][0] == ' '
  {
    hide Rows;
    RowCount(w, zone);
    if zone == [] {
      NoRows(w);
    } else {
      FirstOfRows(w, zone);
    }
  }

  /** Printing a header below a zone leaves the screen as it should be only if one of them is empty. */
  lemma HeaderBelow<T>(above: seq<T>, zone: seq<T>, header: seq<T>)
    requires header == [] || zone == [] || header[0] != zone[0]
    ensures above + zone + header == above + header + zone <==> header == [] || zone == []
  {
    if header == [] || zone == [] {
    } else {
      assert (above + zone + header)[|above|] == zone[0] && (above + header + zone)[|above|] == header[0];
    }
  }

  /** Clearing `n` rows from there and printing the rest is right only if, besides, the zone had `n` rows. */
  lemma ClearedBelow<T>(above: seq<T>, zone: seq<T>, header: seq<T>, rest: seq<T>, n: nat)
    requires n <= |zone|
    requires header == [] || zone == [] || header[0] != zone[0]
    ensures (above + zone + header)[..|above + zone + header| - n] + rest == above + header + rest
       <==> (header == [] || zone == []) && |zone| == n
  {
    var text := above + zone + header;
    var cut := text[..|text| - n];
    if |zone| != n {
      assert |cut + rest| != |above + header + rest|;
    } else if header == [] || zone == [] {
      assert cut == above + header;
    } else {
      assert text[|above|] == zone[0] && cut[|above|] == zone[0];
      assert (cut + rest)[|above|] == zone[0] && (above + header + rest)[|above|] == header[0];
    }
  }

  /** The screen after an event that does not redraw. */
  lemma FinishedExactly(w: Columns, statics: seq<string>, zone: seq<string>, header: seq<string>)
    requires Indented(zone) && IsHeader(header)
    ensures AllPlain(header)
    ensures Written(Screen(w, Rows(w, statics) + Rows(w, zone), false), header)
         == Screen(w, Rows(w, statics + header) + Rows(w, zone), false)
       <==> header == [] || zone == []
  {
    hide Rows, AllPlain;
    HeaderRows(w, header);
    ZoneRows(w, zone);
    RowsAppend(w, statics, header);
    HeaderBelow(Rows(w, statics), Rows(w, zone), Rows(w, header));
  }

  /** The screen after a redraw, with a header printed just before. */
  lemma RedrawnExactly(w: Columns, statics: seq<string>, zone: seq<string>, header: seq<string>,
                       promoted: seq<string>, drawn: seq<string>)
    requires Indented(zone) && IsHeader(header)
    ensures var before := Written(Screen(w, Rows(w, statics) + Rows(w, zone), false), header);
      && |zone| <= |before.text|
      && (Written(Cleared(before, |zone|), promoted + drawn)
            == Screen(w, Rows(w, statics + header + promoted) + Rows(w, drawn), false)
         <==> (header == [] || zone == []) && Flat(w, zone) && AllPlain(header + promoted) && AllPlain(drawn))
  {
    hide Rows, AllPlain, Flat;
    HeaderRows(w, header);
    ZoneRows(w, zone);
    RowCount(w, zone);
    RowsAppend(w, statics, header);
    RowsAppend(w, statics + header, promoted);
    RowsAppend(w, promoted, drawn);
    BothPlain(header, promoted);
    BothPlain(promoted, drawn);
    ClearedBelow(Rows(w, statics), Rows(w, zone), Rows(w, header), Rows(w, promoted) + Rows(w, drawn), |zone|);
    Regroup(Rows(w, statics) + Rows(w, header), Rows(w, promoted), Rows(w, drawn));
  }

  /** What a tidy event adds to the static lines is plain. */
  lemma TidyLines(room: Room, noted: Ui, e: Event, title: string, order: seq<Name>, look: Look,
                  before: seq<string>, after: seq<string>, finished: bool)
    requires TidyUi(room, noted) && ShortDurations(room, look.durText)
    requires after == before + HeaderOf(e, title) + (if finished then [] else PromotedLines(noted, order, look))
    ensures AllPlain(after[|before|..])
  {
    hide PromotedLines, TidyUi, AllPlain, HeaderOf;
    HeaderFits(e, title);
    HeaderRows(1, HeaderOf(e, title));
    PromotedPlain(room, noted, order, look);
    BothPlain(HeaderOf(e, title), PromotedLines(noted, order, look));
    assert after[|before|..] == HeaderOf(e, title) + if finished then [] else PromotedLines(noted, order, look);
    assert HeaderOf(e, title) + [] == HeaderOf(e, title);
  }

  // -------------------------------------------------------- where it does not

  const BLANK := Ui("", map[], [], map[], [], {}, false)

  lemma OneJobShown(name: Name, look: Look)
    ensures var noted := Noted(BLANK, JobStarted(name, 0)); var ui := AfterEvent(BLANK, JobStarted(name, 0));
      && noted.jobOrder == ui.jobOrder == [name] && !ui.finished
      && PromotedLines(noted, [name], look) == []
      && BottomZone(ui, [name], look) == [" => " + name + " " + look.durText(look.now)]
  {
    hide AfterRedraw, JobLines, BottomZone, PromotedLines;
    var noted := Noted(BLANK, JobStarted(name, 0));
    var ui := AfterRedraw(noted);
    RedrawKeeps(noted);
    assert [name][..0] == [];
    EmptyZone(ui, noted, look);
    OneMore(ui, noted, [name], look);
    RunningLine(ui, name, look);
  }

  lemma EmptyZone(ui: Ui, noted: Ui, look: Look)
    ensures BottomZone(ui, [], look) == [] && PromotedLines(noted, [], look) == []
  {
  }

  lemma OneMore(ui: Ui, noted: Ui, order: seq<Name>, look: Look)
    requires order != []
    ensures var k := |order| - 1;
      && BottomZone(ui, order, look) == BottomZone(ui, order[..k], look) + JobLines(ui, order[k], look)
      && (!Promotable(noted, order[k]) ==> PromotedLines(noted, order, look) == PromotedLines(noted, order[..k], look))
  {
    hide JobLines, StaticLines;
  }

  lemma RunningLine(ui: Ui, name: Name, look: Look)
    requires name in ui.jobs && ui.jobs[name].status == Running && ui.jobs[name].startedAt == 0 && ui.stepOrder == []
    ensures JobLines(ui, name, look) == [" => " + name + " " + look.durText(look.now)]
  {
  }

  /** A handler that has just been told of one job, and shows it on a screen of 40 columns. */
  method ShowOneJob(name: Name) returns (h: ProgressHandler)
    requires Plain(name)
    ensures fresh(h) && fresh(h.out) && h.Consistent() && h.Drawable() && h.OnScreen()
    ensures h.out.width == 40 && h.bottom == [" => " + name + " "] && h.bottomLines == 1 && !h.finished
  {
    hide AfterRedraw, BottomZone, PromotedLines, ToPromote, Noted, AllPlain, Flat, Plain;
    var out := new Terminal(40);
    var noText := (_: nat) => "";
    h := new ProgressHandler(out, noText);
    var line := " => " + name + " ";
    assert line + "" == line;
    OneJobShown(name, Look(0, 40, noText));
    LinePlain(name);
    NothingFlat(40);
    h.HandleEvent(JobStarted(name, 0), 0, 40);
    assert h.statics[0..] == [];
  }

  lemma LinePlain(name: Name)
    requires Plain(name)
    ensures AllPlain([" => " + name + " "]) && AllPlain([])
  {
    hide Plain;
    Blanks();
    CleanIsPlain(" => ");
    CleanIsPlain(" ");
    PlainAppend(" => ", name);
    PlainAppend(" => " + name, " ");
  }

  /** The screen was exact, a job is shown, and then PipelineStarted arrives: the screen is wrong. */
  method HeaderOntoZone() returns (h: ProgressHandler)
    ensures fresh(h) && !h.OnScreen()
  {
    h := ShowOneJob("a");
    hide *;
    h.HandleEvent(PipelineStarted("p", "1"), 0, 40);
  }

  /** The line of a job that does not fit on a row is shown on several, and the next event clears only
      one of them: the name holds a line feed, or is as wide as the screen. */
  method WideName(wide: bool) returns (h: ProgressHandler)
    ensures fresh(h) && !h.OnScreen()
  {
    var name := if wide then "0123456789012345678901234567890123456789" else "a\nb";
    WideLine(name);
    h := ShowOneJob(name);
    hide AfterRedraw, BottomZone, PromotedLines, ToPromote, Noted, AllPlain, Flat;
    h.HandleEvent(JobStarted("c", 0), 0, 40);
    assert !h.finished;
  }

  lemma WideLine(name: Name)
    requires name == "a\nb" || name == "0123456789012345678901234567890123456789"
    ensures Plain(name) && !Flat(40, [" => " + name + " "])
  {
    var line := " => " + name + " ";
    assert line in [line];
    if name == "a\nb" { assert line[5] == '\n'; }
  }
}
