/** The `Visualizer` class of visualizer/core.py: `run`, `_trace` and
    `_prompt` as methods that update its fields, each proved to do what the
    definitions in control.dfy say. The interpreter's tracing hook is
    replaced by `Run` handing the callable's events to `Trace` one by one;
    the terminal is the pair of fields `input` (lines not yet typed in) and
    `screen` (everything written so far). */
module Core {
  import opened Wrappers
  import opened PyText
  import opened Snapshot
  import opened Rendering
  import opened Control

  class Visualizer {
    const settings: Settings
    const fmt: Formatter
    const useRich: bool

    var continueUntilReturn: bool
    var targetFilename: Option<string>
    var rootFrame: Option<nat>
    var active: bool
    /** The lines `linecache` serves for the traced file. */
    var sourceLines: seq<string>
    var sourceTotalLines: int

    var input: seq<string>
    var screen: seq<Output>

    /** Outside a run the tracing state is cleared. */
    ghost predicate Valid()
      reads this
    {
      !active ==> !continueUntilReturn && rootFrame.None? && targetFilename.None?
    }

    /** The fields `_trace` and `_should_handle` consult. */
    function State(): TraceState
      reads this
    {
      TraceState(targetFilename, rootFrame, continueUntilReturn)
    }

    /** What rendering reads from the visualizer. */
    function CurrentView(): View
      reads this
    {
      View(fmt, settings, useRich, sourceLines, sourceTotalLines)
    }

    /** `Visualizer(settings=...)`; `richAvailable` says whether Rich could be
        imported, and when it is asked for but missing a warning is written. */
    constructor (settings: Option<Settings>, fmt: Formatter, richAvailable: bool, input: seq<string>)
      ensures Valid()
      ensures this.settings == settings.GetOr(DefaultSettings) && this.fmt == fmt
      ensures useRich == (this.settings.useRich && richAvailable)
      ensures screen == if this.settings.useRich && !richAvailable then [RichMissing] else []
      ensures !active && !continueUntilReturn && targetFilename.None? && rootFrame.None?
      ensures sourceTotalLines == 0 && this.input == input
    {
      var s := settings.GetOr(DefaultSettings);
      this.settings := s;
      this.fmt := fmt;
      useRich := s.useRich && richAvailable;
      continueUntilReturn := false;
      targetFilename := None;
      rootFrame := None;
      active := false;
      sourceLines := [];
      sourceTotalLines := 0;
      this.input := input;
      screen := if s.useRich && !richAvailable then [RichMissing] else [];
    }

    /** `_prompt`: ask until a line is understood; step clears the continue
        flag, continue sets it, quit raises. */
    method Prompt() returns (err: Option<Error>)
      modifies this
      ensures var a := Ask(old(continueUntilReturn), old(input));
        && continueUntilReturn == a.fastForward
        && input == a.rest
        && screen == old(screen) + a.outputs
        && err == a.error
      ensures targetFilename == old(targetFilename) && rootFrame == old(rootFrame) && active == old(active)
      ensures sourceLines == old(sourceLines) && sourceTotalLines == old(sourceTotalLines)
    {
      ghost var goal := Ask(continueUntilReturn, input);
      var ff := continueUntilReturn;
      var typed := input;
      var written: seq<Output> := [];
      var answered := false;
      err := None;
      while !answered
        invariant !answered ==> err.None? && ff == continueUntilReturn && AskedSoFar(goal, written, Ask(ff, typed))
        invariant answered ==> goal == Answer(ff, typed, written, err)
        modifies {}
        decreases |typed| + (if answered then 0 else 1)
      {
        AskNext(goal, written, ff, typed);
        written := written + [Asked];
        if typed == [] {
          answered, err := true, Some(InputClosed);
        } else {
          var line := typed[0];
          typed := typed[1..];
          match Classify(line)
          case StepOnce =>
            ff := false;
            answered := true;
          case ContinueToReturn =>
            ff := true;
            answered := true;
          case Quit =>
            answered, err := true, Some(Cancelled);
          case Unrecognized =>
            written := written + [Complained];
        }
      }
      continueUntilReturn := ff;
      input := typed;
      screen := screen + written;
    }

    /** `_trace(frame, event, arg)`: returns whether tracing goes on
        (`_trace` itself rather than `None`) and the exception it raised. */
    method Trace(e: Event) returns (keep: bool, err: Option<Error>)
      modifies this
      ensures var r := TraceStep(Renderer(old(CurrentView())), old(State()), e, old(input));
        && State() == r.state
        && input == r.rest
        && screen == old(screen) + r.outputs
        && err == r.error
        && keep == r.keep
      ensures active == old(active) && sourceLines == old(sourceLines) && sourceTotalLines == old(sourceTotalLines)
    {
      ghost var t := State();
      ghost var render := Renderer(CurrentView());
      if targetFilename.None? {
        return false, None;
      }
      if e.frame.filename != targetFilename.value {
        return true, None;
      }
      if rootFrame.None? && e.kind.Call? {
        rootFrame := Some(e.frame.id);
      }
      if !ShouldHandle(State(), e) {
        return true, None;
      }
      var shown := RenderEvent(CurrentView(), e);
      assert shown == render(e);
      keep, err := Show(e, shown);
    }

    /** The end of `_trace` once the event was rendered. */
    method Show(e: Event, shown: Option<Display>) returns (keep: bool, err: Option<Error>)
      modifies this
      ensures var r := Present(old(State()), e, shown, old(input));
        && State() == r.state
        && input == r.rest
        && screen == old(screen) + r.outputs
        && err == r.error
        && keep == r.keep
      ensures active == old(active) && sourceLines == old(sourceLines) && sourceTotalLines == old(sourceTotalLines)
    {
      if shown.None? {
        return true, Some(FormatFailed);
      }
      screen := screen + [Shown(e, shown.value)];
      err := None;
      if !continueUntilReturn || (rootFrame == Some(e.frame.id) && e.kind.Return?) {
        err := Prompt();
      }
      return true, err;
    }

    /** The callable running with `_trace` installed: every event goes to
        `Trace` until one call of it raises. */
    method TraceEvents(events: seq<Event>) returns (failure: Option<Error>)
      modifies this
      ensures var goal := Replay(Renderer(old(CurrentView())), old(State()), events, old(input));
        && State() == goal.state
        && input == goal.rest
        && screen == old(screen) + goal.outputs
        && failure == goal.error
      ensures active == old(active) && sourceLines == old(sourceLines) && sourceTotalLines == old(sourceTotalLines)
    {
      ghost var view := CurrentView();
      ghost var render := Renderer(view);
      ghost var goal := Replay(render, State(), events, input);
      ghost var written: seq<Output> := [];
      failure := None;
      var i := 0;
      while i < |events| && failure.None?
        invariant 0 <= i <= |events|
        invariant CurrentView() == view
        invariant active == old(active)
        invariant screen == old(screen) + written
        invariant failure.None? ==> ReplayedSoFar(goal, written, Replay(render, State(), events[i..], input))
        invariant failure.Some? ==> goal == Trail(State(), input, written, failure)
        decreases |events| - i
      {
        ReplayNext(render, goal, written, State(), events[i..], input);
        ghost var step := TraceStep(Renderer(CurrentView()), State(), events[i], input);
        assert events[i..][1..] == events[i + 1..];
        ghost var shown := screen;
        var keep, err := Trace(events[i]);
        assert screen == shown + step.outputs;
        AppendAssoc(old(screen), written, step.outputs);
        written := written + step.outputs;
        failure := err;
        i := i + 1;
      }
      if failure.None? {
        assert events[i..] == [];
      }
    }

    /** The body of `run` once the callable's source file is known:
        `_prepare` (which raises when the file is not UTF-8), then the
        callable with `_trace` installed; its result
        stands unless the trace function raised. */
    method RunTraced(c: Callable) returns (r: RunResult)
      requires c.sourceFile.Some?
      requires !continueUntilReturn && rootFrame.None?
      modifies this
      ensures var s := RunSession(fmt, settings, useRich, c, old(input));
        && r == s.result
        && input == s.rest
        && screen == old(screen) + s.outputs
      ensures active == old(active)
      ensures sourceLines == c.fileLines.GetOr([])
      ensures sourceTotalLines == if c.read.NotUtf8? then old(sourceTotalLines) else LineCount(c)
    {
      // _prepare
      targetFilename := c.sourceFile;
      sourceLines := c.fileLines.GetOr([]);
      if c.read.NotUtf8? {
        return Failed(DecodeFailed);
      }
      sourceTotalLines := LineCount(c);
      ghost var tr := Replay(Renderer(SessionView(fmt, settings, useRich, c)), TraceState(c.sourceFile, None, false), c.events, old(input));
      assert CurrentView() == SessionView(fmt, settings, useRich, c);
      assert State() == TraceState(c.sourceFile, None, false);
      var failure := TraceEvents(c.events);
      assert failure == tr.error && input == tr.rest && screen == old(screen) + tr.outputs;
      r := if failure.Some? then Failed(failure.value)
        else match c.outcome
          case Returns(x) => Returned(x)
          case Raises(name, x) => Failed(Raised(name, x));
    }

    /** `run(func)`: refuse a second run; otherwise locate the source, trace
        every event of the callable until the trace function raises, and
        always clear the tracing state again. */
    method Run(c: Callable) returns (r: RunResult)
      requires Valid()
      modifies this
      ensures Valid()
      ensures old(active) ==> r == Failed(AlreadyRunning) && unchanged(this)
      ensures !old(active) ==>
        var s := RunSession(fmt, settings, useRich, c, old(input));
        && r == s.result
        && input == s.rest
        && screen == old(screen) + s.outputs
        && !active && !continueUntilReturn && targetFilename.None? && rootFrame.None?
      ensures !old(active) && c.sourceFile.Some? ==>
        && sourceLines == c.fileLines.GetOr([])
        && sourceTotalLines == if c.read.NotUtf8? then old(sourceTotalLines) else LineCount(c)
      ensures !old(active) && c.sourceFile.None? ==>
        sourceLines == old(sourceLines) && sourceTotalLines == old(sourceTotalLines)
    {
      if active {
        return Failed(AlreadyRunning);
      }
      active := true;
      if c.sourceFile.None? {
        r := Failed(NoSource);
      } else {
        r := RunTraced(c);
      }
      // the `finally` of `run`
      active := false;
      rootFrame := None;
      targetFilename := None;
      continueUntilReturn := false;
    }
  }
}
