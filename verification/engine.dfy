/**
 * The processing engine's decisions: which processors a configuration
 * puts in the chain, where an output goes, and the per-file loop of
 * `process_images` with its callbacks. What a processor does to the pixels
 * is not modelled: each file's fate comes from a `FileOutcome` oracle.
 */
module Engine {
  import opened Wrappers
  import opened Text
  import opened Paths

  /** The layout processors registered in `_LAYOUT_PROCESSORS`. */
  datatype LayoutKind =
    | WatermarkLeftLogo
    | WatermarkRightLogo
    | DarkWatermarkLeftLogo
    | DarkWatermarkRightLogo
    | CustomWatermark
    | Square
    | Simple
    | BackgroundBlur
    | BackgroundBlurWithWhiteBorder
    | PureWhiteMargin

  datatype Processor =
    | Shadow
    | Layout(kind: LayoutKind)
    | Margin
    | PaddingToOriginalRatio

  /** The parts of a `Config` that decide the chain. */
  datatype ChainConfig = ChainConfig(
    layoutType: string,
    shadowEnabled: bool,
    whiteMarginEnabled: bool,
    paddingEnabled: bool)

  /**
   * `_LAYOUT_PROCESSORS`: layout id to processor class. The ids are the
   * classes' `LAYOUT_ID` constants, which live outside this model.
   */
  type Registry = map<string, LayoutKind>

  /** `_LAYOUT_PROCESSORS.get(layout_id, SimpleProcessor)`. */
  function LayoutFor(registry: Registry, layoutId: string): LayoutKind {
    if layoutId in registry then registry[layoutId] else Simple
  }

  predicate ShadowApplies(c: ChainConfig) {
    c.shadowEnabled && c.layoutType != "square"
  }

  predicate MarginApplies(c: ChainConfig) {
    c.whiteMarginEnabled && Contains(c.layoutType, "watermark")
  }

  predicate PaddingApplies(c: ChainConfig) {
    c.paddingEnabled && c.layoutType != "square"
  }

  function LayoutCount(chain: seq<Processor>): nat {
    if |chain| == 0 then 0
    else (if chain[0].Layout? then 1 else 0) + LayoutCount(chain[1..])
  }

  lemma LayoutCountAppend(a: seq<Processor>, b: seq<Processor>)
    ensures LayoutCount(a + b) == LayoutCount(a) + LayoutCount(b)
  {
    if |a| > 0 {
      assert (a + b)[1..] == a[1..] + b;
    } else {
      assert a + b == b;
    }
  }

  function Flag(b: bool): nat { if b then 1 else 0 }

  /** The chain a configuration asks for: shadow, layout, margin, padding, each optional but the layout. */
  function Chain(config: ChainConfig, registry: Registry): seq<Processor> {
    (if ShadowApplies(config) then [Shadow] else [])
    + [Layout(LayoutFor(registry, config.layoutType))]
    + (if MarginApplies(config) then [Margin] else [])
    + (if PaddingApplies(config) then [PaddingToOriginalRatio] else [])
  }

  /**
   * An optional shadow first, exactly one layout processor, an optional
   * margin right after it, an optional padding last.
   */
  lemma ChainShape(config: ChainConfig, registry: Registry)
    ensures var chain := Chain(config, registry);
      && |chain| == 1 + Flag(ShadowApplies(config)) + Flag(MarginApplies(config)) + Flag(PaddingApplies(config))
      && LayoutCount(chain) == 1
      && ((Shadow in chain) <==> ShadowApplies(config))
      && ((Margin in chain) <==> MarginApplies(config))
      && ((PaddingToOriginalRatio in chain) <==> PaddingApplies(config))
      && (ShadowApplies(config) ==> chain[0] == Shadow)
      && chain[Flag(ShadowApplies(config))] == Layout(LayoutFor(registry, config.layoutType))
      && (MarginApplies(config) ==> chain[Flag(ShadowApplies(config)) + 1] == Margin)
      && (PaddingApplies(config) ==> chain[|chain| - 1] == PaddingToOriginalRatio)
  {
    var pre := if ShadowApplies(config) then [Shadow] else [];
    var layout := [Layout(LayoutFor(registry, config.layoutType))];
    var mid := if MarginApplies(config) then [Margin] else [];
    var post := if PaddingApplies(config) then [PaddingToOriginalRatio] else [];
    assert LayoutCount(layout) == 1;
    assert LayoutCount([Shadow]) == 0 && LayoutCount([Margin]) == 0 && LayoutCount([PaddingToOriginalRatio]) == 0;
    LayoutCountAppend(pre, layout);
    LayoutCountAppend(pre + layout, mid);
    LayoutCountAppend(pre + layout + mid, post);
  }

  /** `build_processor_chain`, appending to the list as the source does. */
  method BuildProcessorChain(config: ChainConfig, registry: Registry) returns (chain: seq<Processor>)
    ensures chain == Chain(config, registry)
  {
    chain := [];
    if config.shadowEnabled && config.layoutType != "square" {
      chain := chain + [Shadow];
    }
    var layoutId := config.layoutType;
    var kind := LayoutFor(registry, layoutId);
    chain := chain + [Layout(kind)];
    if config.whiteMarginEnabled && Contains(layoutId, "watermark") {
      chain := chain + [Margin];
    }
    if config.paddingEnabled && layoutId != "square" {
      chain := chain + [PaddingToOriginalRatio];
    }
  }

  /**
   * `_resolve_output_path`: an `output_map` entry for the source wins, then
   * the output directory with the source's name, then the source itself.
   * `None` is the ValueError `with_name` raises for a path without a name.
   * Paths and map keys are taken as already normalized.
   *
   * Unless the map redirects it, an output keeps its source's file name and
   * lands in the output directory, or beside its source when there is none;
   * only a nameless source without an output directory has no output.
   */
  function ResolveOutputPath(source: string, outputDir: Option<string>, outputMap: map<string, string>): (r: Option<string>)
    ensures source in outputMap ==> r == Some(outputMap[source])
    ensures source !in outputMap ==> (r.None? <==> outputDir.None? && Name(source) == "")
    ensures source !in outputMap && r.Some? && Name(source) != "" ==> Name(r.value) == Name(source)
    ensures source !in outputMap && outputDir.Some? && Name(source) != "" ==> Parent(r.value) == Normalize(outputDir.value)
    ensures source !in outputMap && outputDir.None? && Name(source) != "" ==> Parent(r.value) == Parent(source)
  {
    if |outputMap| > 0 && source in outputMap then Some(outputMap[source])
    else if outputDir.Some? then
      OutputInDirectory(outputDir.value, source);
      Some(Join(outputDir.value, Name(source)))
    else if Name(source) == "" then None
    else
      NameOfNormalize(source);
      ParentOfNormalize(source);
      Some(Normalize(source))
  }

  /** A named source placed in a directory keeps its name and has that directory as its parent. */
  lemma OutputInDirectory(dir: string, source: string)
    ensures Name(source) != "" ==>
      Name(Join(dir, Name(source))) == Name(source) && Parent(Join(dir, Name(source))) == Normalize(dir)
  {
    if Name(source) != "" {
      NameOfJoin(dir, Name(source));
      ParentOfJoin(dir, Name(source));
    }
  }

  /**
   * What `_process_one` did with one file: wrote it, or raised with a
   * message. In preview mode `Written` carries the temporary file
   * `mkstemp` created for it.
   */
  datatype FileOutcome = Written(previewTarget: string) | Raised(message: string)

  /** The destination arguments of `process_images`. */
  datatype Settings = Settings(outputDir: Option<string>, outputMap: map<string, string>, preview: bool)

  datatype Attempt = Saved(target: string) | Failed(message: string)

  /** The message of the ValueError `with_name` raises: the path's `repr`, then "has an empty name". */
  function EmptyNameMessage(source: string): string {
    "PosixPath('" + Normalize(source) + "') has an empty name"
  }

  /** One iteration of the loop's `try` block: the target, then the outcome. */
  function AttemptFile(source: string, settings: Settings, outcome: FileOutcome): Attempt {
    if settings.preview then
      match outcome
      case Written(t) => Saved(t)
      case Raised(m) => Failed(m)
    else
      var target := ResolveOutputPath(source, settings.outputDir, settings.outputMap);
      if target.None? then Failed(EmptyNameMessage(source))
      else
        match outcome
        case Written(_) => Saved(target.value)
        case Raised(m) => Failed(m)
  }

  /**
   * A file fails exactly when processing raised or, outside preview, its
   * target could not be resolved; a raised error is reported with its own
   * message; a saved file went to the preview file or to the resolved target.
   */
  lemma AttemptFileOutcome(source: string, settings: Settings, outcome: FileOutcome)
    ensures var a := AttemptFile(source, settings, outcome);
      var target := ResolveOutputPath(source, settings.outputDir, settings.outputMap);
      && (a.Failed? <==> outcome.Raised? || (!settings.preview && target.None?))
      && (outcome.Raised? && (settings.preview || target.Some?) ==> a == Failed(outcome.message))
      && (!settings.preview && target.None? ==> a == Failed(EmptyNameMessage(source)))
      && (settings.preview && outcome.Written? ==> a == Saved(outcome.previewTarget))
      && (!settings.preview && a.Saved? ==> target == Some(a.target))
  {
  }

  /** A callback invocation, in the order the engine makes them. */
  datatype Event =
    | ErrorReported(source: string, message: string)
    | PreviewReady(source: string, target: string)
    | ProgressReported(index: nat, total: nat, source: string, error: Option<string>)

  datatype FileError = FileError(source: string, message: string)

  function ErrorOf(a: Attempt): Option<string> {
    if a.Failed? then Some(a.message) else None
  }

  /** The callbacks for the file at 1-based `index`: on_error or on_preview, then on_progress. */
  function FileEvents(index: nat, total: nat, source: string, preview: bool, a: Attempt): (evs: seq<Event>)
    ensures |evs| >= 1 && evs[|evs| - 1] == ProgressReported(index, total, source, ErrorOf(a))
    ensures a.Failed? ==> evs == [ErrorReported(source, a.message), ProgressReported(index, total, source, Some(a.message))]
  {
    match a
    case Failed(m) => [ErrorReported(source, m), ProgressReported(index, total, source, Some(m))]
    case Saved(t) => (if preview then [PreviewReady(source, t)] else []) + [ProgressReported(index, total, source, None)]
  }

  /** `[Path(p) for p in inputs]`. */
  function Sources(inputs: seq<string>): (r: seq<string>)
    ensures |r| == |inputs| && forall k :: 0 <= k < |inputs| ==> r[k] == Normalize(inputs[k])
  {
    seq(|inputs|, k requires 0 <= k < |inputs| => Normalize(inputs[k]))
  }

  /** What the loop's `try` block does with each input, in input order. */
  function Attempts(sources: seq<string>, settings: Settings, outcomes: seq<FileOutcome>): (r: seq<Attempt>)
    requires |sources| == |outcomes|
    ensures |r| == |sources| && forall k :: 0 <= k < |sources| ==> r[k] == AttemptFile(sources[k], settings, outcomes[k])
  {
    seq(|sources|, k requires 0 <= k < |sources| => AttemptFile(sources[k], settings, outcomes[k]))
  }

  /** The callbacks of the whole loop: one block per input, in input order. */
  function RunEvents(sources: seq<string>, attempts: seq<Attempt>, preview: bool, total: nat): seq<Event>
    requires |sources| == |attempts|
  {
    if |sources| == 0 then []
    else
      var k := |sources| - 1;
      RunEvents(sources[..k], attempts[..k], preview, total) + FileEvents(k + 1, total, sources[k], preview, attempts[k])
  }

  function FailureOf(source: string, a: Attempt): seq<FileError> {
    if a.Failed? then [FileError(source, a.message)] else []
  }

  /** The failures `process_images` returns: the failing inputs, in input order. */
  function Failures(sources: seq<string>, attempts: seq<Attempt>): seq<FileError>
    requires |sources| == |attempts|
  {
    if |sources| == 0 then []
    else
      var k := |sources| - 1;
      Failures(sources[..k], attempts[..k]) + FailureOf(sources[k], attempts[k])
  }

  lemma RunStep(sources: seq<string>, attempts: seq<Attempt>, preview: bool, total: nat, i: nat)
    requires i < |sources| == |attempts|
    ensures RunEvents(sources[..i + 1], attempts[..i + 1], preview, total)
      == RunEvents(sources[..i], attempts[..i], preview, total) + FileEvents(i + 1, total, sources[i], preview, attempts[i])
    ensures Failures(sources[..i + 1], attempts[..i + 1])
      == Failures(sources[..i], attempts[..i]) + FailureOf(sources[i], attempts[i])
  {
    assert sources[..i + 1][..i] == sources[..i];
    assert attempts[..i + 1][..i] == attempts[..i];
  }

  /**
   * `process_images`: the inputs become paths, then every one of them is
   * attempted, whatever happened to the ones before; the callbacks fire per
   * file; the failures come back.
   */
  method ProcessImages(inputs: seq<string>, settings: Settings, outcomes: seq<FileOutcome>)
    returns (errors: seq<FileError>, events: seq<Event>)
    requires |outcomes| == |inputs|
    ensures var sources := Sources(inputs);
      && events == RunEvents(sources, Attempts(sources, settings, outcomes), settings.preview, |inputs|)
      && errors == Failures(sources, Attempts(sources, settings, outcomes))
  {
    var sources := Sources(inputs);
    errors, events := ProcessSources(sources, settings, outcomes);
  }

  /** The `for index, source_path in enumerate(...)` loop of `process_images`. */
  method ProcessSources(sources: seq<string>, settings: Settings, outcomes: seq<FileOutcome>)
    returns (errors: seq<FileError>, events: seq<Event>)
    requires |outcomes| == |sources|
    ensures events == RunEvents(sources, Attempts(sources, settings, outcomes), settings.preview, |sources|)
    ensures errors == Failures(sources, Attempts(sources, settings, outcomes))
  {
    ghost var attempts := Attempts(sources, settings, outcomes);
    var total := |sources|;
    errors := [];
    events := [];
    var index := 0;
    assert sources[..0] == [] && attempts[..0] == [];
    while index < total
      invariant 0 <= index <= total
      invariant Reported(sources, attempts, settings.preview, index, events, errors)
    {
      var attempt := AttemptFile(sources[index], settings, outcomes[index]);
      assert attempt == attempts[index];
      var failure, callbacks := Report(index + 1, total, sources[index], settings.preview, attempt);
      ReportedStep(sources, attempts, settings.preview, index, events, errors);
      errors := errors + failure;
      events := events + callbacks;
      index := index + 1;
    }
    ReportedAll(sources, attempts, settings.preview, events, errors);
  }

  /** The loop invariant: the callbacks and failures of the first `i` inputs. */
  ghost predicate Reported(sources: seq<string>, attempts: seq<Attempt>, preview: bool, i: nat, events: seq<Event>, errors: seq<FileError>)
    requires i <= |sources| == |attempts|
  {
    && events == RunEvents(sources[..i], attempts[..i], preview, |sources|)
    && errors == Failures(sources[..i], attempts[..i])
  }

  lemma ReportedStep(sources: seq<string>, attempts: seq<Attempt>, preview: bool, i: nat, events: seq<Event>, errors: seq<FileError>)
    requires i < |sources| == |attempts|
    requires Reported(sources, attempts, preview, i, events, errors)
    ensures Reported(sources, attempts, preview, i + 1,
      events + FileEvents(i + 1, |sources|, sources[i], preview, attempts[i]),
      errors + FailureOf(sources[i], attempts[i]))
  {
    RunStep(sources, attempts, preview, |sources|, i);
  }

  lemma ReportedAll(sources: seq<string>, attempts: seq<Attempt>, preview: bool, events: seq<Event>, errors: seq<FileError>)
    requires |sources| == |attempts|
    requires Reported(sources, attempts, preview, |sources|, events, errors)
    ensures events == RunEvents(sources, attempts, preview, |sources|)
    ensures errors == Failures(sources, attempts)
  {
    assert sources[..|sources|] == sources;
    assert attempts[..|attempts|] == attempts;
  }

  /** The `except` branch and the callbacks for one file. */
  method Report(index: nat, total: nat, source: string, preview: bool, attempt: Attempt)
    returns (failure: seq<FileError>, callbacks: seq<Event>)
    ensures failure == FailureOf(source, attempt)
    ensures callbacks == FileEvents(index, total, source, preview, attempt)
  {
    var error: Option<string> := None;
    failure, callbacks := [], [];
    if attempt.Failed? {
      error := Some(attempt.message);
      failure := [FileError(source, attempt.message)];
      callbacks := [ErrorReported(source, attempt.message)];
    } else if preview {
      callbacks := [PreviewReady(source, attempt.target)];
    }
    callbacks := callbacks + [ProgressReported(index, total, source, error)];
  }

  /** The `on_progress` calls among the callbacks. */
  function Progresses(events: seq<Event>): seq<Event> {
    if |events| == 0 then []
    else
      var e := events[|events| - 1];
      Progresses(events[..|events| - 1]) + (if e.ProgressReported? then [e] else [])
  }

  /** The `on_error` calls among the callbacks, as the failures they report. */
  function ErrorReports(events: seq<Event>): seq<FileError> {
    if |events| == 0 then []
    else
      var e := events[|events| - 1];
      ErrorReports(events[..|events| - 1]) + (if e.ErrorReported? then [FileError(e.source, e.message)] else [])
  }

  lemma {:induction false} ProgressesAppend(a: seq<Event>, b: seq<Event>)
    ensures Progresses(a + b) == Progresses(a) + Progresses(b)
  {
    if |b| > 0 {
      assert (a + b)[..|a + b| - 1] == a + b[..|b| - 1];
      ProgressesAppend(a, b[..|b| - 1]);
    } else {
      assert a + b == a;
    }
  }

  lemma {:induction false} ErrorReportsAppend(a: seq<Event>, b: seq<Event>)
    ensures ErrorReports(a + b) == ErrorReports(a) + ErrorReports(b)
  {
    if |b| > 0 {
      assert (a + b)[..|a + b| - 1] == a + b[..|b| - 1];
      ErrorReportsAppend(a, b[..|b| - 1]);
    } else {
      assert a + b == a;
    }
  }

  lemma SingleEvent(e: Event)
    ensures Progresses([e]) == if e.ProgressReported? then [e] else []
    ensures ErrorReports([e]) == if e.ErrorReported? then [FileError(e.source, e.message)] else []
  {
    assert [e][..0] == [];
  }

  lemma FileEventsProgress(index: nat, total: nat, source: string, preview: bool, a: Attempt)
    ensures Progresses(FileEvents(index, total, source, preview, a)) == [ProgressReported(index, total, source, ErrorOf(a))]
    ensures ErrorReports(FileEvents(index, total, source, preview, a)) == FailureOf(source, a)
  {
    var evs := FileEvents(index, total, source, preview, a);
    var p := ProgressReported(index, total, source, ErrorOf(a));
    SingleEvent(p);
    if a.Failed? || preview {
      assert evs == [evs[0]] + [p];
      SingleEvent(evs[0]);
      ProgressesAppend([evs[0]], [p]);
      ErrorReportsAppend([evs[0]], [p]);
    } else {
      assert evs == [p];
    }
  }

  /** The `on_progress` calls the loop should make: one per input, numbered from 1. */
  function ExpectedProgress(sources: seq<string>, attempts: seq<Attempt>, total: nat): (r: seq<Event>)
    requires |sources| == |attempts|
    ensures |r| == |sources|
    ensures forall k :: 0 <= k < |sources| ==> r[k] == ProgressReported(k + 1, total, sources[k], ErrorOf(attempts[k]))
  {
    seq(|sources|, k requires 0 <= k < |sources| => ProgressReported(k + 1, total, sources[k], ErrorOf(attempts[k])))
  }

  lemma ExpectedProgressStep(sources: seq<string>, attempts: seq<Attempt>, total: nat)
    requires 0 < |sources| == |attempts|
    ensures var n := |sources| - 1;
      ExpectedProgress(sources, attempts, total)
        == ExpectedProgress(sources[..n], attempts[..n], total) + [ProgressReported(n + 1, total, sources[n], ErrorOf(attempts[n]))]
  {
    var n := |sources| - 1;
    var expected := ExpectedProgress(sources, attempts, total);
    var expectedFront := ExpectedProgress(sources[..n], attempts[..n], total);
    forall k | 0 <= k < n ensures expected[k] == expectedFront[k] {
      assert sources[..n][k] == sources[k] && attempts[..n][k] == attempts[k];
    }
  }

  lemma ProgressesStep(sources: seq<string>, attempts: seq<Attempt>, preview: bool, total: nat)
    requires 0 < |sources| == |attempts|
    ensures var n := |sources| - 1;
      Progresses(RunEvents(sources, attempts, preview, total))
        == Progresses(RunEvents(sources[..n], attempts[..n], preview, total)) + [ProgressReported(n + 1, total, sources[n], ErrorOf(attempts[n]))]
  {
    var n := |sources| - 1;
    var front := RunEvents(sources[..n], attempts[..n], preview, total);
    RunEventsUnfold(sources, attempts, preview, total);
    ProgressesAfterFile(front, n + 1, total, sources[n], preview, attempts[n]);
  }

  lemma ErrorReportsAfterFile(front: seq<Event>, index: nat, total: nat, source: string, preview: bool, a: Attempt)
    ensures ErrorReports(front + FileEvents(index, total, source, preview, a)) == ErrorReports(front) + FailureOf(source, a)
  {
    FileEventsProgress(index, total, source, preview, a);
    ErrorReportsAppend(front, FileEvents(index, total, source, preview, a));
  }

  lemma FailuresUnfold(sources: seq<string>, attempts: seq<Attempt>)
    requires 0 < |sources| == |attempts|
    ensures var n := |sources| - 1;
      Failures(sources, attempts) == Failures(sources[..n], attempts[..n]) + FailureOf(sources[n], attempts[n])
  {
  }

  lemma ProgressesAfterFile(front: seq<Event>, index: nat, total: nat, source: string, preview: bool, a: Attempt)
    ensures Progresses(front + FileEvents(index, total, source, preview, a)) == Progresses(front) + [ProgressReported(index, total, source, ErrorOf(a))]
  {
    FileEventsProgress(index, total, source, preview, a);
    ProgressesAppend(front, FileEvents(index, total, source, preview, a));
  }

  lemma RunEventsUnfold(sources: seq<string>, attempts: seq<Attempt>, preview: bool, total: nat)
    requires 0 < |sources| == |attempts|
    ensures var n := |sources| - 1;
      RunEvents(sources, attempts, preview, total)
        == RunEvents(sources[..n], attempts[..n], preview, total) + FileEvents(n + 1, total, sources[n], preview, attempts[n])
  {
  }

  /**
   * `on_progress` is called exactly once per input, in input order, with
   * the 1-based index, the total, the input and its error.
   */
  lemma {:induction false} ProgressOncePerInput(sources: seq<string>, attempts: seq<Attempt>, preview: bool, total: nat)
    requires |sources| == |attempts|
    ensures Progresses(RunEvents(sources, attempts, preview, total)) == ExpectedProgress(sources, attempts, total)
  {
    if |sources| > 0 {
      var n := |sources| - 1;
      ProgressOncePerInput(sources[..n], attempts[..n], preview, total);
      ProgressesStep(sources, attempts, preview, total);
      ExpectedProgressStep(sources, attempts, total);
    }
  }

  /** `on_error` reports exactly the failures `process_images` returns, in the same order. */
  lemma {:induction false} ErrorReportsAreFailures(sources: seq<string>, attempts: seq<Attempt>, preview: bool, total: nat)
    requires |sources| == |attempts|
    ensures ErrorReports(RunEvents(sources, attempts, preview, total)) == Failures(sources, attempts)
  {
    if |sources| > 0 {
      var n := |sources| - 1;
      var front := RunEvents(sources[..n], attempts[..n], preview, total);
      ErrorReportsAreFailures(sources[..n], attempts[..n], preview, total);
      RunEventsUnfold(sources, attempts, preview, total);
      ErrorReportsAfterFile(front, n + 1, total, sources[n], preview, attempts[n]);
      FailuresUnfold(sources, attempts);
    }
  }

  /**
   * The failures are exactly the failing inputs: each one names an input
   * whose attempt failed with that message, and every failing input is
   * among them.
   */
  lemma {:induction false} FailuresAreFailingInputs(sources: seq<string>, attempts: seq<Attempt>)
    requires |sources| == |attempts|
    ensures |Failures(sources, attempts)| <= |sources|
    ensures forall e :: e in Failures(sources, attempts) ==>
      exists k :: 0 <= k < |sources| && e.source == sources[k] && attempts[k] == Failed(e.message)
    ensures forall k :: 0 <= k < |sources| && attempts[k].Failed? ==>
      FileError(sources[k], attempts[k].message) in Failures(sources, attempts)
    ensures var ix := FailingIndices(attempts);
      && |Failures(sources, attempts)| == |ix|
      && forall j :: 0 <= j < |ix| ==> Failures(sources, attempts)[j] == FileError(sources[ix[j]], attempts[ix[j]].message)
  {
    FailuresFollowFailingIndices(sources, attempts);
    var failures := Failures(sources, attempts);
    var ix := FailingIndices(attempts);
    forall e | e in failures
      ensures exists k :: 0 <= k < |sources| && e.source == sources[k] && attempts[k] == Failed(e.message)
    {
      var j :| 0 <= j < |failures| && failures[j] == e;
      assert attempts[ix[j]] == Failed(e.message);
    }
    forall k | 0 <= k < |sources| && attempts[k].Failed?
      ensures FileError(sources[k], attempts[k].message) in failures
    {
      var j :| 0 <= j < |ix| && ix[j] == k;
      assert failures[j] == FileError(sources[k], attempts[k].message);
    }
  }

  /** The positions of the failing attempts, each once, in increasing order. */
  function FailingIndices(attempts: seq<Attempt>): (ix: seq<nat>)
    ensures |ix| <= |attempts|
    ensures forall j :: 0 <= j < |ix| ==> ix[j] < |attempts| && attempts[ix[j]].Failed?
    ensures forall j, j' :: 0 <= j < j' < |ix| ==> ix[j] < ix[j']
    ensures forall k :: 0 <= k < |attempts| && attempts[k].Failed? ==> k in ix
  {
    if |attempts| == 0 then []
    else
      var n := |attempts| - 1;
      FailingIndices(attempts[..n]) + (if attempts[n].Failed? then [n] else [])
  }

  /** The j-th failure is that of the j-th failing input. */
  lemma {:induction false} FailuresFollowFailingIndices(sources: seq<string>, attempts: seq<Attempt>)
    requires |sources| == |attempts|
    ensures var ix := FailingIndices(attempts);
      && |Failures(sources, attempts)| == |ix|
      && forall j :: 0 <= j < |ix| ==> Failures(sources, attempts)[j] == FileError(sources[ix[j]], attempts[ix[j]].message)
  {
    if |sources| > 0 {
      var n := |sources| - 1;
      FailuresFollowFailingIndices(sources[..n], attempts[..n]);
      FailuresUnfold(sources, attempts);
      var front := FailingIndices(attempts[..n]);
      PrefixEntries(sources, attempts, n, front, Failures(sources[..n], attempts[..n]));
      AppendEntries(sources, attempts, n, front, Failures(sources[..n], attempts[..n]));
    }
  }

  /** Entries that read the first `n` inputs read the same inputs of the whole run. */
  lemma PrefixEntries(sources: seq<string>, attempts: seq<Attempt>, n: nat, ix: seq<nat>, failures: seq<FileError>)
    requires n <= |sources| == |attempts|
    requires |failures| == |ix|
    requires forall j :: 0 <= j < |ix| ==> ix[j] < n
    requires forall j :: 0 <= j < |ix| ==> attempts[..n][ix[j]].Failed? && failures[j] == FileError(sources[..n][ix[j]], attempts[..n][ix[j]].message)
    ensures forall j :: 0 <= j < |ix| ==> attempts[ix[j]].Failed? && failures[j] == FileError(sources[ix[j]], attempts[ix[j]].message)
  {
  }

  /** The failure of input `n`, if any, follows those of the inputs before it. */
  lemma AppendEntries(sources: seq<string>, attempts: seq<Attempt>, n: nat, ix: seq<nat>, failures: seq<FileError>)
    requires n < |sources| == |attempts|
    requires |failures| == |ix|
    requires forall j :: 0 <= j < |ix| ==> ix[j] < |sources| && attempts[ix[j]].Failed? && failures[j] == FileError(sources[ix[j]], attempts[ix[j]].message)
    ensures var ix' := ix + (if attempts[n].Failed? then [n] else []);
      var failures' := failures + FailureOf(sources[n], attempts[n]);
      && |failures'| == |ix'|
      && forall j :: 0 <= j < |ix'| ==> attempts[ix'[j]].Failed? && failures'[j] == FileError(sources[ix'[j]], attempts[ix'[j]].message)
  {
  }
}
