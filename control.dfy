/** The stepping logic of the `Visualizer` in visualizer/core.py, as functions
    of the tracer's state: `_should_handle`, `_trace`, the `_prompt` loop and
    the event stream `run` drives through them. The class in visualizer.dfy
    is proved to follow these definitions. */
module Control {
  import opened Wrappers
  import opened PyText
  import opened Snapshot
  import opened Rendering

  // ---------------------------------------------------------------------
  // Screen and errors
  // ---------------------------------------------------------------------

  /** What the visualizer writes: the warning that Rich is missing, a rendered
      event, the prompt `input` shows, and the complaint about a line it did
      not understand. */
  datatype Output =
    | RichMissing
    | Shown(event: Event, display: Display)
    | Asked
    | Complained

  /** The ways `run` ends without the callable's own result: the visualizer
      is already running (`RuntimeError`), the callable has no source file
      (`ValueError`), its source file is not UTF-8 (`UnicodeDecodeError`), the
      user quit (`KeyboardInterrupt`), input ended (`EOFError`), a value could
      not be formatted, or the callable raised. */
  datatype Error =
    | AlreadyRunning
    | NoSource
    | DecodeFailed
    | Cancelled
    | InputClosed
    | FormatFailed
    | Raised(typeName: string, value: Value)

  // ---------------------------------------------------------------------
  // _prompt
  // ---------------------------------------------------------------------

  const PromptText: string := "step [Enter] | continue [c] | quit [q]: "

  datatype Command = StepOnce | ContinueToReturn | Quit | Unrecognized

  /** What a line typed at the prompt means, once stripped and lower-cased:
      "", "s" and "n" step, "c" continues, "q" quits (a one-letter word is
      matched by its letter). */
  function Classify(line: string): Command
  {
    var u := Lower(Strip(line));
    if |u| == 0 then StepOnce
    else if |u| != 1 then Unrecognized
    else if u[0] == 's' || u[0] == 'n' then StepOnce
    else if u[0] == 'c' then ContinueToReturn
    else if u[0] == 'q' then Quit
    else Unrecognized
  }

  /** `Classify` accepts exactly the words `_prompt` compares the line with. */
  lemma ClassifyWords(line: string)
    ensures var u := Lower(Strip(line));
      && (Classify(line) == StepOnce <==> u == "" || u == "s" || u == "n")
      && (Classify(line) == ContinueToReturn <==> u == "c")
      && (Classify(line) == Quit <==> u == "q")
  {
    var u := Lower(Strip(line));
    if |u| == 1 {
      assert u == [u[0]];
    }
  }

  /** The outcome of one `_prompt` call: the new continue flag, the input not
      yet read, what was written, and the exception that ended it, if any. */
  datatype Answer = Answer(fastForward: bool, rest: seq<string>, outputs: seq<Output>, error: Option<Error>)

  /** `_prompt`: ask until a line is understood. */
  function Ask(fastForward: bool, input: seq<string>): (a: Answer)
    decreases |input|
  {
    if input == [] then Answer(fastForward, [], [Asked], Some(InputClosed))
    else
      match Classify(input[0])
      case StepOnce => Answer(false, input[1..], [Asked], None)
      case ContinueToReturn => Answer(true, input[1..], [Asked], None)
      case Quit => Answer(fastForward, input[1..], [Asked], Some(Cancelled))
      case Unrecognized =>
        var a := Ask(fastForward, input[1..]);
        Answer(a.fastForward, a.rest, [Asked, Complained] + a.outputs, a.error)
  }

  /** `goal` is what is left of a prompt call after `written` was written
      and the rest behaves like `later`. */
  predicate AskedSoFar(goal: Answer, written: seq<Output>, later: Answer)
  {
    goal == Answer(later.fastForward, later.rest, written + later.outputs, later.error)
  }

  /** One turn of the prompt loop, seen from the call that started it. */
  lemma AskNext(goal: Answer, written: seq<Output>, fastForward: bool, input: seq<string>)
    requires AskedSoFar(goal, written, Ask(fastForward, input))
    ensures input == [] ==> goal == Answer(fastForward, [], written + [Asked], Some(InputClosed))
    ensures input != [] ==>
      match Classify(input[0])
      case StepOnce => goal == Answer(false, input[1..], written + [Asked], None)
      case ContinueToReturn => goal == Answer(true, input[1..], written + [Asked], None)
      case Quit => goal == Answer(fastForward, input[1..], written + [Asked], Some(Cancelled))
      case Unrecognized => AskedSoFar(goal, written + [Asked] + [Complained], Ask(fastForward, input[1..]))
  {
    if input != [] && Classify(input[0]) == Unrecognized {
      var later := Ask(fastForward, input[1..]);
      assert written + ([Asked, Complained] + later.outputs) == written + [Asked] + [Complained] + later.outputs;
    }
  }

  /** A line `_prompt` does not understand costs a prompt and a complaint,
      and the prompt goes on with the next line. */
  lemma AskSkips(fastForward: bool, input: seq<string>)
    requires input != [] && Classify(input[0]) == Unrecognized
    ensures var a := Ask(fastForward, input[1..]);
      Ask(fastForward, input) == Answer(a.fastForward, a.rest, [Asked, Complained] + a.outputs, a.error)
  {
  }

  /** A line `_prompt` understands ends it: quit raises, the others set the
      continue flag. */
  lemma AskStops(fastForward: bool, input: seq<string>)
    requires input != [] && Classify(input[0]) != Unrecognized
    ensures var c := Classify(input[0]);
      Ask(fastForward, input)
      == Answer(if c == Quit then fastForward else c == ContinueToReturn, input[1..], [Asked],
                if c == Quit then Some(Cancelled) else None)
  {
  }

  /** `_prompt` reads a prefix of the input, and every line of it but the
      last was not understood. */
  lemma {:induction false} AskReadsPrefix(fastForward: bool, input: seq<string>)
    ensures var a := Ask(fastForward, input);
      var n := |input| - |a.rest|;
      && |a.rest| <= |input| && a.rest == input[n..]
      && (forall i :: 0 <= i < n - 1 ==> Classify(input[i]) == Unrecognized)
    decreases |input|
  {
    if input != [] && Classify(input[0]) == Unrecognized {
      AskReadsPrefix(fastForward, input[1..]);
      AskSkips(fastForward, input);
      var n := |input| - |Ask(fastForward, input[1..]).rest|;
      assert input[1..][n - 1..] == input[n..];
      forall i | 0 <= i < n - 1 ensures Classify(input[i]) == Unrecognized {
        if i > 0 {
          assert input[i] == input[1..][i - 1];
        }
      }
    }
  }

  /** Each line `_prompt` reads was asked for once and complained about
      unless it ended the prompt; running out of input costs one more
      prompt. */
  lemma {:induction false} AskWrites(fastForward: bool, input: seq<string>)
    ensures var a := Ask(fastForward, input);
      var n := |input| - |a.rest|;
      |a.outputs| == (if a.error == Some(InputClosed) then 2 * n + 1 else 2 * n - 1)
    decreases |input|
  {
    if input != [] && Classify(input[0]) == Unrecognized {
      AskWrites(fastForward, input[1..]);
      AskSkips(fastForward, input);
    }
  }

  /** `_prompt` ends normally exactly on a step or continue line, which sets
      the continue flag; an exception leaves the flag alone. */
  lemma {:induction false} AskEndsNormally(fastForward: bool, input: seq<string>)
    ensures var a := Ask(fastForward, input);
      var n := |input| - |a.rest|;
      && 0 <= n <= |input|
      && (a.error.None? <==> n > 0 && (Classify(input[n - 1]) == StepOnce || Classify(input[n - 1]) == ContinueToReturn))
      && (a.error.None? ==> a.fastForward == (Classify(input[n - 1]) == ContinueToReturn))
      && (a.error.Some? ==> a.fastForward == fastForward)
    decreases |input|
  {
    if input == [] {
    } else if Classify(input[0]) != Unrecognized {
      AskStops(fastForward, input);
    } else {
      AskEndsNormally(fastForward, input[1..]);
      AskSkips(fastForward, input);
      var n := |input| - |Ask(fastForward, input[1..]).rest|;
      if n > 1 {
        assert input[n - 1] == input[1..][n - 2];
      }
    }
  }

  /** `_prompt` raises `EOFError` exactly when every line it read was not
      understood and the input ran out. */
  lemma {:induction false} AskRunsOut(fastForward: bool, input: seq<string>)
    ensures var a := Ask(fastForward, input);
      var n := |input| - |a.rest|;
      && 0 <= n <= |input|
      && (a.error == Some(InputClosed) <==> n == |input| && (n == 0 || Classify(input[n - 1]) == Unrecognized))
    decreases |input|
  {
    if input == [] {
    } else if Classify(input[0]) != Unrecognized {
      AskStops(fastForward, input);
    } else {
      AskRunsOut(fastForward, input[1..]);
      AskSkips(fastForward, input);
      var n := |input| - |Ask(fastForward, input[1..]).rest|;
      if n > 1 {
        assert input[n - 1] == input[1..][n - 2];
      }
    }
  }

  /** `_prompt` raises `KeyboardInterrupt` exactly when the line that ended
      it was a quit line. */
  lemma {:induction false} AskQuits(fastForward: bool, input: seq<string>)
    ensures var a := Ask(fastForward, input);
      var n := |input| - |a.rest|;
      && 0 <= n <= |input|
      && (a.error == Some(Cancelled) <==> n > 0 && Classify(input[n - 1]) == Quit)
    decreases |input|
  {
    if input == [] {
    } else if Classify(input[0]) != Unrecognized {
      AskStops(fastForward, input);
    } else {
      AskQuits(fastForward, input[1..]);
      AskSkips(fastForward, input);
      var n := |input| - |Ask(fastForward, input[1..]).rest|;
      if n > 1 {
        assert input[n - 1] == input[1..][n - 2];
      }
    }
  }

  // ---------------------------------------------------------------------
  // _should_handle and _trace
  // ---------------------------------------------------------------------

  /** `_target_filename`, the identity of `_root_frame`, and
      `_continue_until_return`. */
  datatype TraceState = TraceState(target: Option<string>, root: Option<nat>, fastForward: bool)

  /** `_should_handle`: before the root frame is known only a call counts;
      while continuing, only the root frame's events count. */
  function ShouldHandle(t: TraceState, e: Event): bool
  {
    if t.root.None? then e.kind.Call?
    else if t.fastForward && e.frame.id != t.root.value then false
    else true
  }

  /** What one call of `_trace` did: the new state, the input left, the
      outputs, the exception it raised, and whether it returned `_trace`
      (`keep`) or `None`. */
  datatype Reaction = Reaction(state: TraceState, rest: seq<string>, outputs: seq<Output>, error: Option<Error>, keep: bool)

  /** `_trace(frame, event, arg)`. */
  function TraceStep(render: Event -> Option<Display>, t: TraceState, e: Event, input: seq<string>): Reaction
  {
    if t.target.None? then Reaction(t, input, [], None, false)
    else if e.frame.filename != t.target.value then Reaction(t, input, [], None, true)
    else
      var t1 := if t.root.None? && e.kind.Call? then t.(root := Some(e.frame.id)) else t;
      if !ShouldHandle(t1, e) then Reaction(t1, input, [], None, true)
      else Present(t1, e, render(e), input)
  }

  /** The end of `_trace` for an event it handles, given what rendering it
      produced: show it, then prompt unless continuing (or at the root
      frame's return). */
  function Present(t: TraceState, e: Event, shown: Option<Display>, input: seq<string>): Reaction
  {
    match shown
    case None => Reaction(t, input, [], Some(FormatFailed), true)
    case Some(d) =>
      if !t.fastForward || (t.root == Some(e.frame.id) && e.kind.Return?) then
        var a := Ask(t.fastForward, input);
        Reaction(t.(fastForward := a.fastForward), a.rest, [Shown(e, d)] + a.outputs, a.error, true)
      else
        Reaction(t, input, [Shown(e, d)], None, true)
  }

  /** An event of the traced file is shown exactly when it is the root call
      or comes after it, belongs to the root frame while continuing, and its
      values can be formatted; nothing else is ever written before it. */
  lemma TraceStepShows(render: Event -> Option<Display>, t: TraceState, e: Event, input: seq<string>)
    requires t.target.Some?
    ensures var r := TraceStep(render, t, e, input);
      && r.keep
      && (r.outputs != [] <==>
            && e.frame.filename == t.target.value
            && (t.root.None? ==> e.kind.Call?)
            && (t.root.Some? && t.fastForward ==> e.frame.id == t.root.value)
            && render(e).Some?)
      && (r.outputs != [] ==> r.outputs[0] == Shown(e, render(e).value))
  {
  }

  /** `_trace` prompts after showing an event unless it is continuing, and
      while continuing it prompts only on the root frame's return; showing
      without prompting reads no input and keeps the state. */
  lemma TraceStepPrompts(render: Event -> Option<Display>, t: TraceState, e: Event, input: seq<string>)
    requires t.target.Some? && t.root.Some?
    requires TraceStep(render, t, e, input).outputs != []
    ensures var r := TraceStep(render, t, e, input);
      (|r.outputs| > 1 <==> !t.fastForward || (e.frame.id == t.root.value && e.kind.Return?))
      && (|r.outputs| == 1 ==> r.rest == input && r.state == t && r.error.None?)
  {
    var r := TraceStep(render, t, e, input);
    if !t.fastForward || (e.frame.id == t.root.value && e.kind.Return?) {
      AskWrites(t.fastForward, input);
    }
  }

  /** The root frame is the frame of the first call event in the traced file,
      and once known it never changes; neither does the target file. */
  lemma TraceStepRoot(render: Event -> Option<Display>, t: TraceState, e: Event, input: seq<string>)
    ensures var r := TraceStep(render, t, e, input);
      && r.state.target == t.target
      && (t.root.Some? ==> r.state.root == t.root)
      && (r.state.root != t.root <==>
            t.target.Some? && t.root.None? && e.frame.filename == t.target.value && e.kind.Call?)
      && (r.state.root != t.root ==> r.state.root == Some(e.frame.id))
  {
  }

  // ---------------------------------------------------------------------
  // The event stream of one run
  // ---------------------------------------------------------------------

  /** Where a stream of events left the tracer. */
  datatype Trail = Trail(state: TraceState, rest: seq<string>, outputs: seq<Output>, error: Option<Error>)

  /** Every event the interpreter reports while the callable runs goes to
      `_trace`, until one call of it raises, which ends the run. */
  function Replay(render: Event -> Option<Display>, t: TraceState, events: seq<Event>, input: seq<string>): Trail
    decreases |events|
  {
    if events == [] then Trail(t, input, [], None)
    else
      var r := TraceStep(render, t, events[0], input);
      if r.error.Some? then Trail(r.state, r.rest, r.outputs, r.error)
      else
        var tail := Replay(render, r.state, events[1..], r.rest);
        Trail(tail.state, tail.rest, r.outputs + tail.outputs, tail.error)
  }

  /** `goal` is what is left of a run after `written` was written and the
      events still to come behave like `later`. */
  predicate ReplayedSoFar(goal: Trail, written: seq<Output>, later: Trail)
  {
    goal == Trail(later.state, later.rest, written + later.outputs, later.error)
  }

  /** One event of the run, seen from its start. */
  lemma ReplayNext(render: Event -> Option<Display>, goal: Trail, written: seq<Output>,
                   t: TraceState, events: seq<Event>, input: seq<string>)
    requires events != []
    requires ReplayedSoFar(goal, written, Replay(render, t, events, input))
    ensures var r := TraceStep(render, t, events[0], input);
      && (r.error.Some? ==> goal == Trail(r.state, r.rest, written + r.outputs, r.error))
      && (r.error.None? ==> ReplayedSoFar(goal, written + r.outputs, Replay(render, r.state, events[1..], r.rest)))
  {
    var r := TraceStep(render, t, events[0], input);
    var whole := Replay(render, t, events, input);
    if r.error.Some? {
      assert whole == Trail(r.state, r.rest, r.outputs, r.error);
    } else {
      var tail := Replay(render, r.state, events[1..], r.rest);
      assert whole == Trail(tail.state, tail.rest, r.outputs + tail.outputs, tail.error);
      AppendAssoc(written, r.outputs, tail.outputs);
    }
  }

  /** The events of the traced file, in order. */
  function InFile(file: string, events: seq<Event>): (r: seq<Event>)
    ensures forall i :: 0 <= i < |r| ==> r[i].frame.filename == file
    ensures forall e :: e in r <==> e in events && e.frame.filename == file
  {
    if events == [] then []
    else if events[0].frame.filename == file then [events[0]] + InFile(file, events[1..])
    else InFile(file, events[1..])
  }

  /** Events from other files change nothing: the run behaves as if only the
      traced file's events had happened. */
  lemma {:induction false} ReplayIgnoresOtherFiles(render: Event -> Option<Display>, file: string, root: Option<nat>, ff: bool, events: seq<Event>, input: seq<string>)
    ensures Replay(render, TraceState(Some(file), root, ff), events, input)
      == Replay(render, TraceState(Some(file), root, ff), InFile(file, events), input)
    decreases |events|
  {
    if events != [] {
      var t := TraceState(Some(file), root, ff);
      var r := TraceStep(render, t, events[0], input);
      if events[0].frame.filename == file {
        var kept := InFile(file, events);
        assert kept == [events[0]] + InFile(file, events[1..]);
        assert kept[0] == events[0] && kept[1..] == InFile(file, events[1..]);
        if r.error.None? {
          assert r.state.target == Some(file);
          ReplayIgnoresOtherFiles(render, file, r.state.root, r.state.fastForward, events[1..], r.rest);
        }
      } else {
        assert r == Reaction(t, input, [], None, true);
        var tail := Replay(render, t, events[1..], input);
        assert [] + tail.outputs == tail.outputs;
        ReplayIgnoresOtherFiles(render, file, root, ff, events[1..], input);
      }
    }
  }

  /** Once the user continues, the events of frames other than the root are
      skipped entirely: no output, no input read, no change of state. */
  lemma {:induction false} ContinueSkipsOtherFrames(render: Event -> Option<Display>, t: TraceState, events: seq<Event>, input: seq<string>)
    requires t.target.Some? && t.root.Some? && t.fastForward
    requires forall i :: 0 <= i < |events| ==> events[i].frame.id != t.root.value
    ensures Replay(render, t, events, input) == Trail(t, input, [], None)
    decreases |events|
  {
    if events != [] {
      ContinueSkipsOtherFrames(render, t, events[1..], input);
    }
  }

  /** The prompt writes nothing but prompts and complaints. */
  lemma {:induction false} AskOutputs(fastForward: bool, input: seq<string>)
    ensures forall o :: o in Ask(fastForward, input).outputs ==> o == Asked || o == Complained
    decreases |input|
  {
    if input != [] && Classify(input[0]) == Unrecognized {
      AskOutputs(fastForward, input[1..]);
    }
  }

  /** The only event one call of `_trace` shows is its own, and only when it
      comes from the traced file. */
  lemma TraceStepShownEvent(render: Event -> Option<Display>, t: TraceState, e: Event, input: seq<string>)
    requires t.target.Some?
    ensures forall o :: o in TraceStep(render, t, e, input).outputs && o.Shown? ==>
      o.event == e && e.frame.filename == t.target.value
  {
    AskOutputs(t.fastForward, input);
  }

  /** Every event shown belongs to the traced file, and the root never
      changes once known. */
  lemma {:induction false} ReplayShowsOnlyTarget(render: Event -> Option<Display>, t: TraceState, events: seq<Event>, input: seq<string>)
    requires t.target.Some?
    ensures var r := Replay(render, t, events, input);
      && r.state.target == t.target
      && (t.root.Some? ==> r.state.root == t.root)
      && forall o :: o in r.outputs && o.Shown? ==> o.event.frame.filename == t.target.value
    decreases |events|
  {
    if events != [] {
      var r := TraceStep(render, t, events[0], input);
      TraceStepRoot(render, t, events[0], input);
      TraceStepShownEvent(render, t, events[0], input);
      if r.error.None? {
        ReplayShowsOnlyTarget(render, r.state, events[1..], r.rest);
      }
    }
  }

  /** The first event shown in a run is the root call: the first call event
      of the traced file. */
  lemma {:induction false} FirstShownIsRootCall(render: Event -> Option<Display>, file: string, events: seq<Event>, input: seq<string>)
    ensures var r := Replay(render, TraceState(Some(file), None, false), events, input);
      r.outputs != [] ==>
        && r.outputs[0].Shown?
        && r.outputs[0].event.kind.Call?
        && r.outputs[0].event.frame.filename == file
        && r.state.root == Some(r.outputs[0].event.frame.id)
    decreases |events|
  {
    if events != [] {
      var t := TraceState(Some(file), None, false);
      var r := TraceStep(render, t, events[0], input);
      TraceStepShows(render, t, events[0], input);
      if r.outputs == [] {
        if r.error.None? {
          assert r.state == t;
          FirstShownIsRootCall(render, file, events[1..], r.rest);
        }
      } else if r.error.None? {
        ReplayShowsOnlyTarget(render, r.state, events[1..], r.rest);
      }
    }
  }

  // ---------------------------------------------------------------------
  // run
  // ---------------------------------------------------------------------

  /** What the traced callable does when called: the file
      `inspect.getsourcefile` reports (`None` when there is none), that file's
      lines as `linecache` serves them (`None` when it cannot be read), what
      `_prepare`'s own read of the file gives, the events the interpreter
      reports while it runs, and how it ends. */
  datatype Callable = Callable(
    sourceFile: Option<string>,
    fileLines: Option<seq<string>>,
    read: SourceRead,
    events: seq<Event>,
    outcome: Outcome)

  /** `read_text(encoding="utf-8").splitlines()` in `_prepare`: an `OSError`,
      bytes that are not UTF-8 (a `UnicodeDecodeError`, which nothing
      catches), or the number of lines. `splitlines` also breaks at
      characters such as form feeds that `linecache` keeps inside a line, so
      the count is not tied to `fileLines`. */
  datatype SourceRead = ReadFailed | NotUtf8 | Decoded(lineCount: nat)

  datatype Outcome = Returns(value: Value) | Raises(typeName: string, value: Value)

  /** What `run` returns or raises. */
  datatype RunResult = Returned(value: Value) | Failed(error: Error)

  /** The result of a run, the input left, and what it wrote. */
  datatype Session = Session(result: RunResult, rest: seq<string>, outputs: seq<Output>)

  /** The line count `_prepare` takes: 0 on an `OSError`. */
  function LineCount(c: Callable): int
  {
    if c.read.Decoded? then c.read.lineCount else 0
  }

  /** What the run renders with once `_prepare` has read the source file. */
  function SessionView(fmt: Formatter, settings: Settings, useRich: bool, c: Callable): View
  {
    View(fmt, settings, useRich, c.fileLines.GetOr([]), LineCount(c))
  }

  /** The renderer `_trace` calls, for a fixed view. */
  function Renderer(v: View): Event -> Option<Display>
  {
    e => Render(v, e)
  }

  /** `run(func)` on an idle visualizer: trace the callable's events from a
      fresh state; a trace-function exception ends the run with that
      exception, otherwise the callable's own outcome stands. */
  function RunSession(fmt: Formatter, settings: Settings, useRich: bool, c: Callable, input: seq<string>): Session
  {
    match c.sourceFile
    case None => Session(Failed(NoSource), input, [])
    case Some(file) =>
      if c.read.NotUtf8? then Session(Failed(DecodeFailed), input, []) else
      var render := Renderer(SessionView(fmt, settings, useRich, c));
      var r := Replay(render, TraceState(Some(file), None, false), c.events, input);
      var result :=
        if r.error.Some? then Failed(r.error.value)
        else match c.outcome
          case Returns(x) => Returned(x)
          case Raises(name, x) => Failed(Raised(name, x));
      Session(result, r.rest, r.outputs)
  }

  /** A run returns the callable's own value only when the trace function
      never raised; a run with nothing to show neither writes nor reads. */
  lemma RunSessionResult(fmt: Formatter, settings: Settings, useRich: bool, c: Callable, input: seq<string>)
    ensures var s := RunSession(fmt, settings, useRich, c, input);
      && (s.result.Returned? ==> c.sourceFile.Some? && !c.read.NotUtf8? && c.outcome == Returns(s.result.value))
      && (c.sourceFile.None? ==> s == Session(Failed(NoSource), input, []))
      && (c.sourceFile.Some? && c.read.NotUtf8? ==> s == Session(Failed(DecodeFailed), input, []))
      && (c.sourceFile.Some? && !c.read.NotUtf8? && (forall i :: 0 <= i < |c.events| ==> c.events[i].frame.filename != c.sourceFile.value) ==>
            s.outputs == [] && s.rest == input
            && s.result == match c.outcome case Returns(x) => Returned(x) case Raises(n, x) => Failed(Raised(n, x)))
  {
    if c.sourceFile.Some? && !c.read.NotUtf8? && (forall i :: 0 <= i < |c.events| ==> c.events[i].frame.filename != c.sourceFile.value) {
      var file := c.sourceFile.value;
      var render := Renderer(SessionView(fmt, settings, useRich, c));
      ReplayIgnoresOtherFiles(render, file, None, false, c.events, input);
      assert InFile(file, c.events) == [];
    }
  }
}
