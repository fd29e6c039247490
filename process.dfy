/**
  The driver `process` (csv2map.go:79-131): validate the configuration,
  open the input, configure the CSV reader, then either dump the rows
  (inspect mode) or collect entries, derive the output path, open the
  writer and render. Every failing step returns its error at once, and
  the deferred `Close` calls release whatever was opened.

  The steps whose effect lies outside the shown code (opening files,
  reading, `processFile`, `render`) are given as a World of their results.
  The run is specified twice: as a state machine over phases (Step, Run,
  Execute) and as the early-return method Process, proved equal to it.
 */
module Process {
  import opened Wrappers
  import opened Config
  import opened Separator
  import opened OutputPath
  import opened Inspect

  /** Where OpenFileOrStdInReader reads from (csv2map.go:155-161). */
  datatype Source = Stdin | InputFile(path: string)

  /** Where OpenFileOrStdOutWriter writes to (csv2map.go:163-169). */
  datatype Target = Stdout | OutputFile(path: string)

  function InputSource(fileName: string): Source
  {
    if fileName == "" then Stdin else InputFile(fileName)
  }

  function OutputTarget(path: string): Target
  {
    if path == "" then Stdout else OutputFile(path)
  }

  /** One key-value pair collected from a row. */
  datatype Entry = Entry(key: string, value: string)

  /**
    What the outside world answers to each step of a run: the error opening
    the input file (stdin always opens), the reader's answers, what
    `processFile` returns, the error opening the output file (stdout always
    opens) and the error `render` returns.
   */
  datatype World = World(
    inputFailure: Option<string>,
    answers: seq<ReadResult>,
    collected: Result<seq<Entry>, string>,
    outputFailure: Option<string>,
    renderFailure: Option<string>)

  /** The error `process` returns, by the step that failed. */
  datatype Error =
    | Invalid(reason: ValidationError)
    | InputUnavailable(cause: string)
    | ReadFailed(read: ReadError)
    | CollectFailed(cause: string)
    | OutputUnavailable(cause: string)  // returned as "Unable to open output file: " + cause
    | RenderFailed(cause: string)

  /** How a run ends: nil, an error, or the panic of GetSeparator's `[0]` on an empty rune slice. */
  datatype Outcome = Success | Failure(error: Error) | Panicked

  /** The externally visible actions of a run, in order. */
  datatype Call =
    | OpenReader(source: Source)
    | DumpRows(separator: char, printed: string)
    | CollectEntries(separator: char, keyIndex: int, valueIndex: int, ignoreHeader: bool)
    | OpenWriter(target: Target)
    | Render(packageName: string, mapName: string, entries: seq<Entry>)
    | CloseWriter
    | CloseReader

  /** The phases of a run: what has been done and what is open. */
  datatype Phase =
    | Idle
    | Validated
    | ReaderOpen
    | Parsing(separator: char)
    | Collected(entries: seq<Entry>)
    | WriterOpen(entries: seq<Entry>, target: Target)
    | Finished(outcome: Outcome)

  function Rank(p: Phase): nat
  {
    match p
    case Idle => 6
    case Validated => 5
    case ReaderOpen => 4
    case Parsing(_) => 3
    case Collected(_) => 2
    case WriterOpen(_, _) => 1
    case Finished(_) => 0
  }

  /**
    One transition of the run and the calls it makes. A transition into
    Finished also performs the deferred closes of what is open.
   */
  function Step(c: Config, w: World, p: Phase): (r: (Phase, seq<Call>))
    requires !p.Finished?
    ensures Rank(r.0) < Rank(p)
  {
    match p
    case Idle =>
      (match Validate(c)
       case Some(e) => (Finished(Failure(Invalid(e))), [])
       case None => (Validated, []))
    case Validated =>
      var source := InputSource(c.fileName);
      if source.InputFile? && w.inputFailure.Some? then
        (Finished(Failure(InputUnavailable(w.inputFailure.value))), [OpenReader(source)])
      else (ReaderOpen, [OpenReader(source)])
    case ReaderOpen =>
      (match ReaderSeparator(c.delimiter)
       case None => (Finished(Panicked), [CloseReader])
       case Some(sep) => (Parsing(sep), []))
    case Parsing(sep) =>
      if c.inspect then
        var d := Dump(w.answers);
        var outcome := if d.error.Some? then Failure(ReadFailed(d.error.value)) else Success;
        (Finished(outcome), [DumpRows(sep, d.printed), CloseReader])
      else
        var collect := CollectEntries(sep, c.keyIndex, c.valueIndex, c.ignoreHeader);
        (match w.collected
         case Err(cause) => (Finished(Failure(CollectFailed(cause))), [collect, CloseReader])
         case Ok(entries) => (Collected(entries), [collect]))
    case Collected(entries) =>
      var target := OutputTarget(GetOutputPath(c.fileName, c.mapName));
      if target.OutputFile? && w.outputFailure.Some? then
        (Finished(Failure(OutputUnavailable(w.outputFailure.value))), [OpenWriter(target), CloseReader])
      else (WriterOpen(entries, target), [OpenWriter(target)])
    case WriterOpen(entries, _) =>
      var outcome := if w.renderFailure.Some? then Failure(RenderFailed(w.renderFailure.value)) else Success;
      (Finished(outcome), [Render(c.packageName, c.mapName, entries), CloseWriter, CloseReader])
  }

  /** Run the state machine from phase `p` to the end: the outcome and every call made on the way. */
  function Run(c: Config, w: World, p: Phase): (Outcome, seq<Call>)
    decreases Rank(p)
  {
    if p.Finished? then (p.outcome, [])
    else
      var step := Step(c, w, p);
      var rest := Run(c, w, step.0);
      (rest.0, step.1 + rest.1)
  }

  /** Run takes one Step from a phase that is not finished. */
  lemma Unfold(c: Config, w: World, p: Phase)
    requires !p.Finished?
    ensures Run(c, w, p) == (Run(c, w, Step(c, w, p).0).0, Step(c, w, p).1 + Run(c, w, Step(c, w, p).0).1)
    ensures Step(c, w, p).0.Finished? ==> Run(c, w, p) == (Step(c, w, p).0.outcome, Step(c, w, p).1)
    ensures Step(c, w, p).1 == [] ==> Run(c, w, p) == Run(c, w, Step(c, w, p).0)
  {
    var next := Step(c, w, p).0;
    if next.Finished? {
      assert Run(c, w, next) == (next.outcome, []);
      assert Step(c, w, p).1 + [] == Step(c, w, p).1;
    }
    if Step(c, w, p).1 == [] {
      assert [] + Run(c, w, next).1 == Run(c, w, next).1;
    }
  }

  /** The calls made so far, followed by the rest of the run from `phase`, make the whole run. */
  ghost predicate RunSoFar(c: Config, w: World, phase: Phase, calls: seq<Call>)
  {
    Execute(c, w) == (Run(c, w, phase).0, calls + Run(c, w, phase).1)
  }

  lemma Begin(c: Config, w: World)
    ensures RunSoFar(c, w, Idle, [])
  {
    assert [] + Run(c, w, Idle).1 == Run(c, w, Idle).1;
  }

  lemma Advance(c: Config, w: World, phase: Phase, calls: seq<Call>)
    requires !phase.Finished? && RunSoFar(c, w, phase, calls)
    ensures RunSoFar(c, w, Step(c, w, phase).0, calls + Step(c, w, phase).1)
    ensures Step(c, w, phase).1 == [] ==> RunSoFar(c, w, Step(c, w, phase).0, calls)
  {
    var step := Step(c, w, phase);
    Unfold(c, w, phase);
    Concat(calls, step.1, Run(c, w, step.0).1);
  }

  lemma Concat(a: seq<Call>, b: seq<Call>, d: seq<Call>)
    ensures a + (b + d) == (a + b) + d
    ensures b == [] ==> a + b == a
  {
  }

  lemma End(c: Config, w: World, outcome: Outcome, calls: seq<Call>)
    requires RunSoFar(c, w, Finished(outcome), calls)
    ensures Execute(c, w) == (outcome, calls)
  {
    assert calls + [] == calls;
  }

  /** A whole run of `process`. */
  function Execute(c: Config, w: World): (Outcome, seq<Call>)
  {
    Run(c, w, Idle)
  }

  /**
    process, with its early returns. Once the reader is open every return
    also performs the deferred `reader.Close()`, and once the writer is
    open the deferred `writer.Close()` before it.
   */
  method Process(c: Config, w: World) returns (outcome: Outcome, calls: seq<Call>)
    ensures (outcome, calls) == Execute(c, w)
  {
    // `phase` is where the state machine stands: the calls made so far,
    // followed by the rest of its run from there, make the whole run.
    ghost var phase := Idle;
    calls := [];
    Begin(c, w);
    Advance(c, w, phase, calls);
    var invalid := Validate(c);
    if invalid.Some? {
      End(c, w, Failure(Invalid(invalid.value)), calls);
      return Failure(Invalid(invalid.value)), calls;
    }
    phase := Validated;

    Advance(c, w, phase, calls);
    var source := InputSource(c.fileName);
    calls := calls + [OpenReader(source)];
    if source.InputFile? && w.inputFailure.Some? {
      End(c, w, Failure(InputUnavailable(w.inputFailure.value)), calls);
      return Failure(InputUnavailable(w.inputFailure.value)), calls;
    }
    phase := ReaderOpen;

    Advance(c, w, phase, calls);
    var separator := ReaderSeparator(c.delimiter);
    if separator.None? {
      End(c, w, Panicked, calls + [CloseReader]);
      return Panicked, calls + [CloseReader];
    }
    var sep := separator.value;
    phase := Parsing(sep);

    ghost var before := calls;
    Advance(c, w, phase, calls);
    if c.inspect {
      var err, printed := DumpFile(w.answers);
      calls := calls + [DumpRows(sep, printed), CloseReader];
      if err.Some? {
        End(c, w, Failure(ReadFailed(err.value)), calls);
        return Failure(ReadFailed(err.value)), calls;
      }
      End(c, w, Success, calls);
      return Success, calls;
    }

    var collect := CollectEntries(sep, c.keyIndex, c.valueIndex, c.ignoreHeader);
    calls := calls + [collect];
    if w.collected.Err? {
      assert Step(c, w, phase) == (Finished(Failure(CollectFailed(w.collected.error))), [collect, CloseReader]);
      assert calls + [CloseReader] == before + [collect, CloseReader];
      End(c, w, Failure(CollectFailed(w.collected.error)), calls + [CloseReader]);
      return Failure(CollectFailed(w.collected.error)), calls + [CloseReader];
    }
    var entries := w.collected.value;
    assert Step(c, w, phase) == (Collected(entries), [collect]);
    phase := Collected(entries);

    before := calls;
    Advance(c, w, phase, calls);
    var outputFile := GetOutputPath(c.fileName, c.mapName);
    var target := OutputTarget(outputFile);
    calls := calls + [OpenWriter(target)];
    if target.OutputFile? && w.outputFailure.Some? {
      assert Step(c, w, phase) == (Finished(Failure(OutputUnavailable(w.outputFailure.value))), [OpenWriter(target), CloseReader]);
      assert calls + [CloseReader] == before + [OpenWriter(target), CloseReader];
      End(c, w, Failure(OutputUnavailable(w.outputFailure.value)), calls + [CloseReader]);
      return Failure(OutputUnavailable(w.outputFailure.value)), calls + [CloseReader];
    }
    assert Step(c, w, phase) == (WriterOpen(entries, target), [OpenWriter(target)]);
    phase := WriterOpen(entries, target);

    Advance(c, w, phase, calls);
    calls := calls + [Render(c.packageName, c.mapName, entries), CloseWriter, CloseReader];
    if w.renderFailure.Some? {
      End(c, w, Failure(RenderFailed(w.renderFailure.value)), calls);
      return Failure(RenderFailed(w.renderFailure.value)), calls;
    }
    End(c, w, Success, calls);
    return Success, calls;
  }

  // ----- properties of a run -----

  /** Every input opens: stdin always, a file when the world says so. */
  predicate InputOpens(c: Config, w: World)
  {
    c.fileName == "" || w.inputFailure.None?
  }

  /** An invalid configuration is rejected with its first failing check, before any call, whatever the input path and the world. */
  lemma ValidationPrecedesInput(c: Config, w: World)
    requires Validate(c).Some?
    ensures Execute(c, w) == (Failure(Invalid(Validate(c).value)), [])
  {
    Unfold(c, w, Idle);
  }

  /** A missing input file fails the run after validation, with only the attempt to open it. */
  lemma MissingInputFails(c: Config, w: World)
    requires Validate(c).None? && c.fileName != "" && w.inputFailure.Some?
    ensures Execute(c, w) == (Failure(InputUnavailable(w.inputFailure.value)), [OpenReader(InputFile(c.fileName))])
  {
    Unfold(c, w, Idle);
    Unfold(c, w, Validated);
  }

  /** A delimiter that does not unquote to a rune panics once the input is open; the deferred close still runs. */
  lemma BadDelimiterPanics(c: Config, w: World)
    requires Validate(c).None? && InputOpens(c, w)
    requires |DelimiterRunes(c.delimiter)| != 1
    ensures Execute(c, w) == (Panicked, [OpenReader(InputSource(c.fileName)), CloseReader])
  {
    ReachReaderOpen(c, w);
    assert Step(c, w, ReaderOpen) == (Finished(Panicked), [CloseReader]);
    Advance(c, w, ReaderOpen, [OpenReader(InputSource(c.fileName))]);
    assert [OpenReader(InputSource(c.fileName))] + [CloseReader] == [OpenReader(InputSource(c.fileName)), CloseReader];
    End(c, w, Panicked, [OpenReader(InputSource(c.fileName))] + [CloseReader]);
  }

  /** A valid configuration whose input opens reaches the open reader with the one call that opened it. */
  lemma ReachReaderOpen(c: Config, w: World)
    requires Validate(c).None? && InputOpens(c, w)
    ensures RunSoFar(c, w, ReaderOpen, [OpenReader(InputSource(c.fileName))])
  {
    Begin(c, w);
    assert Step(c, w, Idle) == (Validated, []);
    Advance(c, w, Idle, []);
    assert Step(c, w, Validated) == (ReaderOpen, [OpenReader(InputSource(c.fileName))]);
    Advance(c, w, Validated, []);
    assert [] + [OpenReader(InputSource(c.fileName))] == [OpenReader(InputSource(c.fileName))];
  }

  /** With a delimiter that unquotes to a rune, the run goes on to parse with that rune as separator. */
  lemma ReachParsing(c: Config, w: World)
    requires Validate(c).None? && InputOpens(c, w)
    requires |DelimiterRunes(c.delimiter)| == 1
    ensures RunSoFar(c, w, Parsing(DelimiterRunes(c.delimiter)[0]), [OpenReader(InputSource(c.fileName))])
  {
    ReachReaderOpen(c, w);
    var sep := DelimiterRunes(c.delimiter)[0];
    assert ReaderSeparator(c.delimiter) == Some(sep);
    assert Step(c, w, ReaderOpen) == (Parsing(sep), []);
    Advance(c, w, ReaderOpen, [OpenReader(InputSource(c.fileName))]);
  }

  /**
    Inspect mode stops after dumping: the run opens the input, dumps its
    rows, closes it, and never collects, opens a writer or renders. It
    succeeds exactly when the dump ends at end of input.
   */
  lemma InspectStopsAfterDump(c: Config, w: World)
    requires c.inspect && Validate(c).None? && InputOpens(c, w)
    requires |DelimiterRunes(c.delimiter)| == 1
    ensures Execute(c, w).1 == [OpenReader(InputSource(c.fileName)), DumpRows(DelimiterRunes(c.delimiter)[0], Dump(w.answers).printed), CloseReader]
    ensures Execute(c, w).0 == if Dump(w.answers).error.Some? then Failure(ReadFailed(Dump(w.answers).error.value)) else Success
  {
    var sep := DelimiterRunes(c.delimiter)[0];
    var d := Dump(w.answers);
    var outcome := if d.error.Some? then Failure(ReadFailed(d.error.value)) else Success;
    var start := [OpenReader(InputSource(c.fileName))];
    ReachParsing(c, w);
    assert Step(c, w, Parsing(sep)) == (Finished(outcome), [DumpRows(sep, d.printed), CloseReader]);
    Advance(c, w, Parsing(sep), start);
    End(c, w, outcome, start + [DumpRows(sep, d.printed), CloseReader]);
  }

  /** No call of a run in inspect mode collects, opens a writer or renders. */
  lemma {:induction false} InspectNeverGenerates(c: Config, w: World)
    requires c.inspect
    ensures forall call :: call in Execute(c, w).1 ==> !call.CollectEntries? && !call.OpenWriter? && !call.Render?
  {
    if Validate(c).None? && InputOpens(c, w) && |DelimiterRunes(c.delimiter)| == 1 {
      InspectStopsAfterDump(c, w);
    } else if Validate(c).None? && InputOpens(c, w) {
      BadDelimiterPanics(c, w);
    } else if Validate(c).None? {
      MissingInputFails(c, w);
    } else {
      ValidationPrecedesInput(c, w);
    }
  }

  /** The calls of a generate-mode run that gets its separator, from collecting on. */
  function GenerateCalls(c: Config, w: World, sep: char): seq<Call>
  {
    var collect := CollectEntries(sep, c.keyIndex, c.valueIndex, c.ignoreHeader);
    var target := OutputFile(GetOutputPath(c.fileName, c.mapName));
    match w.collected
    case Err(_) => [collect, CloseReader]
    case Ok(entries) =>
      if w.outputFailure.Some? then [collect, OpenWriter(target), CloseReader]
      else [collect, OpenWriter(target), Render(c.packageName, c.mapName, entries), CloseWriter, CloseReader]
  }

  /**
    Generate mode: each failing step aborts the run with that step's error
    and no later step happens; the writer always goes to the derived file,
    never to stdout.
   */
  lemma GenerateSteps(c: Config, w: World)
    requires !c.inspect && Validate(c).None? && InputOpens(c, w)
    requires |DelimiterRunes(c.delimiter)| == 1
    ensures Execute(c, w).1 == [OpenReader(InputSource(c.fileName))] + GenerateCalls(c, w, DelimiterRunes(c.delimiter)[0])
    ensures w.collected.Err? ==> Execute(c, w).0 == Failure(CollectFailed(w.collected.error))
    ensures w.collected.Ok? && w.outputFailure.Some? ==> Execute(c, w).0 == Failure(OutputUnavailable(w.outputFailure.value))
    ensures w.collected.Ok? && w.outputFailure.None? && w.renderFailure.Some? ==> Execute(c, w).0 == Failure(RenderFailed(w.renderFailure.value))
    ensures w.collected.Ok? && w.outputFailure.None? && w.renderFailure.None? ==> Execute(c, w).0 == Success
  {
    ReachParsing(c, w);
    AfterParsing(c, w, DelimiterRunes(c.delimiter)[0], [OpenReader(InputSource(c.fileName))]);
  }

  /** The generate-mode steps from parsing on, after the calls made so far. */
  lemma AfterParsing(c: Config, w: World, sep: char, start: seq<Call>)
    requires !c.inspect && RunSoFar(c, w, Parsing(sep), start)
    ensures Execute(c, w).1 == start + GenerateCalls(c, w, sep)
    ensures w.collected.Err? ==> Execute(c, w).0 == Failure(CollectFailed(w.collected.error))
    ensures w.collected.Ok? && w.outputFailure.Some? ==> Execute(c, w).0 == Failure(OutputUnavailable(w.outputFailure.value))
    ensures w.collected.Ok? && w.outputFailure.None? && w.renderFailure.Some? ==> Execute(c, w).0 == Failure(RenderFailed(w.renderFailure.value))
    ensures w.collected.Ok? && w.outputFailure.None? && w.renderFailure.None? ==> Execute(c, w).0 == Success
  {
    if w.collected.Err? {
      CollectFails(c, w, sep, start);
    } else if w.outputFailure.Some? {
      CollectThenWriterFails(c, w, sep, start);
    } else {
      CollectThenRenders(c, w, sep, start);
    }
  }

  /** Collecting succeeds and the output file does not open. */
  lemma CollectThenWriterFails(c: Config, w: World, sep: char, start: seq<Call>)
    requires !c.inspect && w.collected.Ok? && w.outputFailure.Some? && RunSoFar(c, w, Parsing(sep), start)
    ensures Execute(c, w) == (Failure(OutputUnavailable(w.outputFailure.value)), start + GenerateCalls(c, w, sep))
  {
    var collect := CollectEntries(sep, c.keyIndex, c.valueIndex, c.ignoreHeader);
    var open := OpenWriter(OutputFile(GetOutputPath(c.fileName, c.mapName)));
    CollectSucceeds(c, w, sep, start);
    WriterFails(c, w, w.collected.value, start + [collect]);
    assert GenerateCalls(c, w, sep) == [collect, open, CloseReader];
    assert start + [collect] + [open, CloseReader] == start + [collect, open, CloseReader];
  }

  /** Collecting succeeds and the output file opens: the run ends as rendering does. */
  lemma CollectThenRenders(c: Config, w: World, sep: char, start: seq<Call>)
    requires !c.inspect && w.collected.Ok? && w.outputFailure.None? && RunSoFar(c, w, Parsing(sep), start)
    ensures Execute(c, w) == (if w.renderFailure.Some? then Failure(RenderFailed(w.renderFailure.value)) else Success,
      start + GenerateCalls(c, w, sep))
  {
    var entries := w.collected.value;
    var collect := CollectEntries(sep, c.keyIndex, c.valueIndex, c.ignoreHeader);
    var open := OpenWriter(OutputFile(GetOutputPath(c.fileName, c.mapName)));
    var rest := [Render(c.packageName, c.mapName, entries), CloseWriter, CloseReader];
    CollectSucceeds(c, w, sep, start);
    Renders(c, w, entries, start + [collect]);
    assert GenerateCalls(c, w, sep) == [collect, open, rest[0], rest[1], rest[2]];
    assert start + [collect] + [open] + rest == start + [collect, open, rest[0], rest[1], rest[2]];
  }

  /** A collecting step that fails ends the run with its error; the deferred close of the reader runs. */
  lemma CollectFails(c: Config, w: World, sep: char, calls: seq<Call>)
    requires !c.inspect && w.collected.Err? && RunSoFar(c, w, Parsing(sep), calls)
    ensures Execute(c, w) == (Failure(CollectFailed(w.collected.error)), calls + GenerateCalls(c, w, sep))
  {
    var outcome := Failure(CollectFailed(w.collected.error));
    var collect := CollectEntries(sep, c.keyIndex, c.valueIndex, c.ignoreHeader);
    assert Step(c, w, Parsing(sep)) == (Finished(outcome), [collect, CloseReader]);
    Advance(c, w, Parsing(sep), calls);
    End(c, w, outcome, calls + [collect, CloseReader]);
    assert GenerateCalls(c, w, sep) == [collect, CloseReader];
  }

  /** A collecting step that succeeds moves on with the collected entries. */
  lemma CollectSucceeds(c: Config, w: World, sep: char, calls: seq<Call>)
    requires !c.inspect && w.collected.Ok? && RunSoFar(c, w, Parsing(sep), calls)
    ensures RunSoFar(c, w, Collected(w.collected.value), calls + [CollectEntries(sep, c.keyIndex, c.valueIndex, c.ignoreHeader)])
  {
    var collect := CollectEntries(sep, c.keyIndex, c.valueIndex, c.ignoreHeader);
    assert Step(c, w, Parsing(sep)) == (Collected(w.collected.value), [collect]);
    Advance(c, w, Parsing(sep), calls);
  }

  /** After collecting, an output file that does not open ends the run; only the reader is closed. */
  lemma WriterFails(c: Config, w: World, entries: seq<Entry>, calls: seq<Call>)
    requires w.outputFailure.Some? && RunSoFar(c, w, Collected(entries), calls)
    ensures Execute(c, w) == (Failure(OutputUnavailable(w.outputFailure.value)),
      calls + [OpenWriter(OutputFile(GetOutputPath(c.fileName, c.mapName))), CloseReader])
  {
    var target := OutputTarget(GetOutputPath(c.fileName, c.mapName));
    assert target == OutputFile(GetOutputPath(c.fileName, c.mapName));
    var outcome := Failure(OutputUnavailable(w.outputFailure.value));
    assert Step(c, w, Collected(entries)) == (Finished(outcome), [OpenWriter(target), CloseReader]);
    Advance(c, w, Collected(entries), calls);
    End(c, w, outcome, calls + [OpenWriter(target), CloseReader]);
  }

  /**
    After collecting, an output file that opens is rendered into; the run
    fails exactly when rendering does, and closes the writer, then the reader.
   */
  lemma Renders(c: Config, w: World, entries: seq<Entry>, calls: seq<Call>)
    requires w.outputFailure.None? && RunSoFar(c, w, Collected(entries), calls)
    ensures Execute(c, w) == (if w.renderFailure.Some? then Failure(RenderFailed(w.renderFailure.value)) else Success,
      calls + [OpenWriter(OutputFile(GetOutputPath(c.fileName, c.mapName)))]
        + [Render(c.packageName, c.mapName, entries), CloseWriter, CloseReader])
  {
    var target := OutputTarget(GetOutputPath(c.fileName, c.mapName));
    assert target == OutputFile(GetOutputPath(c.fileName, c.mapName));
    assert Step(c, w, Collected(entries)) == (WriterOpen(entries, target), [OpenWriter(target)]);
    Advance(c, w, Collected(entries), calls);
    var outcome := if w.renderFailure.Some? then Failure(RenderFailed(w.renderFailure.value)) else Success;
    var rest := [Render(c.packageName, c.mapName, entries), CloseWriter, CloseReader];
    assert Step(c, w, WriterOpen(entries, target)) == (Finished(outcome), rest);
    Advance(c, w, WriterOpen(entries, target), calls + [OpenWriter(target)]);
    End(c, w, outcome, calls + [OpenWriter(target)] + rest);
  }

  /** Generate mode never writes to stdout: every writer a run opens is a file. */
  lemma {:induction false} NeverWritesStdout(c: Config, w: World)
    ensures forall call :: call in Execute(c, w).1 && call.OpenWriter? ==> call.target.OutputFile?
  {
    if c.inspect {
      InspectNeverGenerates(c, w);
    } else if Validate(c).None? && InputOpens(c, w) && |DelimiterRunes(c.delimiter)| == 1 {
      GenerateSteps(c, w);
    } else if Validate(c).None? && InputOpens(c, w) {
      BadDelimiterPanics(c, w);
    } else if Validate(c).None? {
      MissingInputFails(c, w);
    } else {
      ValidationPrecedesInput(c, w);
    }
  }

  /**
    A run succeeds exactly when every step does: valid flags, an input that
    opens, a delimiter that unquotes to a rune, and then a dump without
    read error, or collecting, opening the output file and rendering
    without error.
   */
  lemma {:induction false} SuccessIffEveryStepSucceeds(c: Config, w: World)
    ensures Execute(c, w).0 == Success <==>
      && Validate(c).None? && InputOpens(c, w) && |DelimiterRunes(c.delimiter)| == 1
      && if c.inspect then Dump(w.answers).error.None?
         else w.collected.Ok? && w.outputFailure.None? && w.renderFailure.None?
  {
    if Validate(c).None? && InputOpens(c, w) && |DelimiterRunes(c.delimiter)| == 1 {
      if c.inspect {
        InspectStopsAfterDump(c, w);
      } else {
        GenerateSteps(c, w);
      }
    } else if Validate(c).None? && InputOpens(c, w) {
      BadDelimiterPanics(c, w);
    } else if Validate(c).None? {
      MissingInputFails(c, w);
    } else {
      ValidationPrecedesInput(c, w);
    }
  }

  /** The run ended because its input file did not open. */
  predicate InputFailed(o: Outcome)
  {
    o.Failure? && o.error.InputUnavailable?
  }

  /** The run ended because its output file did not open. */
  predicate OutputFailed(o: Outcome)
  {
    o.Failure? && o.error.OutputUnavailable?
  }

  /**
    Whatever is opened is closed, and only that: a run that opened its
    input ends by closing it, and closes a writer exactly when opening one
    succeeded, just before the reader. A failed open returns before its
    `defer` is reached, so nothing is closed for it.
   */
  lemma {:induction false} ResourcesReleased(c: Config, w: World)
    ensures var calls := Execute(c, w).1;
      && (calls != [] && !InputFailed(Execute(c, w).0) ==> calls[|calls| - 1] == CloseReader)
      && ((exists call :: call in calls && call.OpenWriter?) && !OutputFailed(Execute(c, w).0) <==> CloseWriter in calls)
      && (CloseWriter in calls ==> |calls| >= 2 && calls[|calls| - 2] == CloseWriter)
  {
    if Validate(c).None? && InputOpens(c, w) && |DelimiterRunes(c.delimiter)| == 1 {
      if c.inspect {
        InspectStopsAfterDump(c, w);
      } else {
        GeneratedResourcesReleased(c, w);
      }
    } else if Validate(c).None? && InputOpens(c, w) {
      BadDelimiterPanics(c, w);
    } else if Validate(c).None? {
      MissingInputFails(c, w);
    } else {
      ValidationPrecedesInput(c, w);
    }
  }

  lemma GeneratedResourcesReleased(c: Config, w: World)
    requires !c.inspect && Validate(c).None? && InputOpens(c, w)
    requires |DelimiterRunes(c.delimiter)| == 1
    ensures var calls := Execute(c, w).1;
      && calls != [] && calls[|calls| - 1] == CloseReader
      && ((exists call :: call in calls && call.OpenWriter?) && !OutputFailed(Execute(c, w).0) <==> CloseWriter in calls)
      && (CloseWriter in calls ==> |calls| >= 2 && calls[|calls| - 2] == CloseWriter)
  {
    GenerateSteps(c, w);
    var calls := Execute(c, w).1;
    var start := OpenReader(InputSource(c.fileName));
    var collect := CollectEntries(DelimiterRunes(c.delimiter)[0], c.keyIndex, c.valueIndex, c.ignoreHeader);
    var open := OpenWriter(OutputFile(GetOutputPath(c.fileName, c.mapName)));
    if w.collected.Err? {
      assert calls == [start, collect, CloseReader];
    } else if w.outputFailure.Some? {
      assert calls == [start, collect, open, CloseReader];
    } else {
      var entries := w.collected.value;
      assert calls == [start, collect, open, Render(c.packageName, c.mapName, entries), CloseWriter, CloseReader];
      assert open in calls;
    }
  }
}
