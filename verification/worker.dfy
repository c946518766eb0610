/**
 * `_run_job`, the worker thread body, as a step machine. Each step is one
 * stretch of the worker that makes one semaphore call, or at most one
 * `_update_job`, or only touches its own locals. The cancel checks
 * (`FirstCheck`, `Poll`, `AfterAcquire`, and the progress callback in
 * `FileStep`) take the lock twice in the source, once in
 * `_is_cancel_requested` and once for the update that follows; the model
 * runs both holds as one step. Other threads (cancel requests, the reaper,
 * other workers) may act between two steps.
 * What the engine and the file system do comes in with each step as a
 * `StepInput`.
 */
module Worker {
  import opened Wrappers
  import opened Paths
  import opened Jobs
  import opened Slots
  import Engine
  import WebHelpers
  import JobStore

  const WaitingMessage := "Waiting for available worker slot"
  const StartedMessage := "Processing started"
  const CompletedMessage := "Completed"
  const CancelledMessage := "Cancelled"
  const MissingWorkspace := "Missing workspace directory"
  const PreviewZipName := "semi-utils-preview.zip"
  const OutputZipName := "semi-utils-output.zip"

  /** Where the worker is in `_run_job`. */
  datatype Pc =
    | Start          // look the job up
    | FirstCheck     // the cancel check before waiting
    | MarkWaiting
    | Poll           // the cancel check at the head of the slot loop
    | Acquire        // `RUNNING_SLOTS.acquire(timeout=0.2)`
    | AfterAcquire   // the cancel check once a slot is held
    | MarkRunning
    | Prepare        // workspace check, output or preview directory
    | FileStep(index: nat)  // one iteration of `process_images` and its callbacks
    | Package        // collect outputs, write the archive, mark done
    | CancelSalvage  // the `except JobCancelledError` block
    | Release        // the `finally` block
    | Finished

  /** The locals of `_run_job`, plus the fields of the job it reads once at the start. */
  datatype WorkerState = WorkerState(
    jobId: string,
    pc: Pc,
    slotAcquired: bool,
    previewMode: bool,
    inputs: seq<string>,
    workspace: Option<string>,
    outputDir: Option<string>,
    previewDir: Option<string>,
    errorItems: seq<ErrorItem>,
    previewPaths: seq<string>)

  /** A worker thread just started for `jobId`. */
  function Launch(jobId: string): WorkerState {
    WorkerState(jobId, Start, false, false, [], None, None, None, [], [])
  }

  /** The shared state: the job table and the semaphore. */
  datatype World = World(jobs: map<string, JobRecord>, gate: GateState)

  /**
   * What the outside world contributes to one step: the clock, what
   * processing the current file did, an exception raised in the step (by
   * the file system when creating a directory or writing the archive, or,
   * in the `Prepare` step, by the setup `process_images` does before its
   * first file), and the files on disk.
   */
  datatype StepInput = StepInput(now: real, outcome: Engine.FileOutcome, fault: Option<string>, onDisk: set<string>)

  function Update(world: World, id: string, ch: Changes, now: real): (r: World)
    ensures r.gate == world.gate && r.jobs.Keys == world.jobs.Keys
    ensures forall k :: k in world.jobs && k != id ==> r.jobs[k] == world.jobs[k]
  {
    UpdatedJobsFrame(world.jobs, id, ch, now);
    world.(jobs := UpdatedJobs(world.jobs, id, ch, now))
  }

  const CancelChanges := Changes(status := Some(Cancelled), message := Some(CancelledMessage), cancelRequested := Some(true))

  function FailedMessage(m: string): string {
    "Processing failed: " + m
  }

  /** `except Exception as exc`: the job is marked failed, then `finally` runs. */
  function Fail(w: WorkerState, world: World, m: string, now: real): (WorkerState, World) {
    (w.(pc := Release), Update(world, w.jobId, Changes(status := Some(Error), message := Some(FailedMessage(m))), now))
  }

  /** The progress message `on_progress` records for a file. */
  function ProgressMessage(source: string, a: Engine.Attempt): string {
    if a.Failed? then "Failed " + Name(source) + ": " + a.message else "Processed " + Name(source)
  }

  /** A released slot; releasing a slot nobody holds raises and changes nothing. */
  function Released(g: GateState): GateState {
    if g.inUse > 0 then g.(inUse := g.inUse - 1) else g
  }

  /**
   * One iteration of `process_images` for input `i`, its `on_error` or
   * `on_preview` callback, and `on_progress`, which raises
   * `JobCancelledError` when a cancel has been requested.
   */
  function FileNext(w: WorkerState, i: nat, jobs: map<string, JobRecord>, input: StepInput): (r: (WorkerState, map<string, JobRecord>))
    requires i < |w.inputs|
    ensures r.0 == w.(pc := r.0.pc, errorItems := r.0.errorItems, previewPaths := r.0.previewPaths)
    ensures r.0.pc == (if CancelRequested(jobs, w.jobId) then CancelSalvage else FileStep(i + 1))
    ensures r.1.Keys == jobs.Keys && forall k :: k in jobs && k != w.jobId ==> r.1[k] == jobs[k]
  {
    var source := Normalize(w.inputs[i]);
    var a := Engine.AttemptFile(source, Engine.Settings(w.outputDir, map[], w.previewMode), input.outcome);
    var w' := w.(
      errorItems := w.errorItems + (if a.Failed? then [ErrorItem(source, a.message)] else []),
      previewPaths := w.previewPaths + (if a.Saved? && w.previewMode then [a.target] else []));
    if CancelRequested(jobs, w.jobId) then (w'.(pc := CancelSalvage), jobs)
    else
      var ch := Changes(current := Some(i + 1), total := Some(|w.inputs|), message := Some(ProgressMessage(source, a)));
      UpdatedJobsFrame(jobs, w.jobId, ch, input.now);
      (w'.(pc := FileStep(i + 1)), UpdatedJobs(jobs, w.jobId, ch, input.now))
  }

  /** The outputs the job has on disk once processing is over. */
  function Outputs(w: WorkerState, onDisk: set<string>): seq<string> {
    WebHelpers.OutputFiles(w.previewMode, w.inputs, w.outputDir, w.previewPaths, onDisk)
  }

  /** The archive's file name: one for previews, one for full outputs. */
  function ZipName(previewMode: bool): string {
    if previewMode then PreviewZipName else OutputZipName
  }

  /**
   * The changes of the final `_update_job` of a successful run. The source
   * reports the error list `process_images` returns; the model records the
   * list `on_error` built, which is the same list in the same order
   * (`Engine.ErrorReportsAreFailures`).
   */
  function DoneChanges(w: WorkerState, onDisk: set<string>): Changes {
    var n := |w.inputs|;
    Changes(
      status := Some(Done), message := Some(CompletedMessage),
      outputCount := Some(|Outputs(w, onDisk)|), errors := Some(w.errorItems),
      zipPath := Some(Join(w.workspace.GetOr(""), ZipName(w.previewMode))),
      outputFilename := Some(ZipName(w.previewMode)),
      current := Some(n), total := Some(n))
  }

  /** The changes of the `except JobCancelledError` block. */
  function SalvageChanges(w: WorkerState, onDisk: set<string>): Changes {
    Changes(
      status := Some(Cancelled), message := Some(CancelledMessage),
      outputCount := Some(|Outputs(w, onDisk)|), errors := Some(w.errorItems),
      cancelRequested := Some(true))
  }

  /**
   * The workspace check and the output (or preview) directory. A job record
   * read without a workspace directory, or a failure to create the
   * directory, marks the job failed; otherwise the work starts at the first
   * file, writing into the workspace's preview or output directory.
   */
  function PrepareStep(w: WorkerState, world: World, input: StepInput): (r: (WorkerState, World))
    ensures r.0.pc == if w.workspace.None? || input.fault.Some? then Release else FileStep(0)
    ensures r.1.jobs.Keys == world.jobs.Keys
    ensures (w.workspace.None? || input.fault.Some?) && w.jobId in world.jobs ==>
      && r.1.jobs[w.jobId].status == Error
      && r.1.jobs[w.jobId].message == FailedMessage(if w.workspace.None? then MissingWorkspace else input.fault.value)
    ensures w.workspace.Some? && input.fault.None? ==>
      && r.1 == world
      && r.0.previewDir == (if w.previewMode then Some(Join(w.workspace.value, "preview")) else None)
      && r.0.outputDir == (if w.previewMode then None else Some(Join(w.workspace.value, "output")))
  {
    if w.workspace.None? then Fail(w, world, MissingWorkspace, input.now)
    else if input.fault.Some? then Fail(w, world, input.fault.value, input.now)
    else
      var ws := w.workspace.value;
      (w.(pc := FileStep(0),
          previewDir := if w.previewMode then Some(Join(ws, "preview")) else None,
          outputDir := if w.previewMode then None else Some(Join(ws, "output"))), world)
  }

  /** One step of `_run_job`. */
  function Next(w: WorkerState, world: World, input: StepInput): (WorkerState, World) {
    var id := w.jobId;
    var now := input.now;
    match w.pc
    case Start =>
      if id !in world.jobs then (w.(pc := Finished), world)
      else
        var job := world.jobs[id];
        (w.(pc := FirstCheck, previewMode := job.previewMode, inputs := job.inputPaths, workspace := job.workspaceDir), world)
    case FirstCheck =>
      if CancelRequested(world.jobs, id) then (w.(pc := Finished), Update(world, id, CancelChanges, now))
      else (w.(pc := MarkWaiting), world)
    case MarkWaiting =>
      (w.(pc := Poll), Update(world, id, Changes(status := Some(Waiting), message := Some(WaitingMessage)), now))
    case Poll =>
      if CancelRequested(world.jobs, id) then (w.(pc := Release), Update(world, id, CancelChanges, now))
      else (w.(pc := Acquire), world)
    case Acquire =>
      if world.gate.inUse < world.gate.capacity then
        (w.(pc := AfterAcquire, slotAcquired := true), world.(gate := world.gate.(inUse := world.gate.inUse + 1)))
      else (w.(pc := Poll), world)
    case AfterAcquire =>
      if CancelRequested(world.jobs, id) then (w.(pc := Release), Update(world, id, CancelChanges, now))
      else (w.(pc := MarkRunning), world)
    case MarkRunning =>
      (w.(pc := Prepare), Update(world, id, Changes(status := Some(Running), message := Some(StartedMessage)), now))
    case Prepare => PrepareStep(w, world, input)
    case FileStep(i) =>
      if i < |w.inputs| then
        var (w', jobs') := FileNext(w, i, world.jobs, input);
        (w', world.(jobs := jobs'))
      else (w.(pc := Package), world)
    case Package =>
      if input.fault.Some? then Fail(w, world, input.fault.value, now)
      else (w.(pc := Release), Update(world, id, DoneChanges(w, input.onDisk), now))
    case CancelSalvage =>
      (w.(pc := Release), Update(world, id, SalvageChanges(w, input.onDisk), now))
    case Release =>
      if w.slotAcquired then (w.(pc := Finished, slotAcquired := false), world.(gate := Released(world.gate)))
      else (w.(pc := Finished), world)
    case Finished =>
      (w, world)
  }

  /** The places where the worker holds a slot, whatever the path that led there. */
  predicate HoldsSlotAt(pc: Pc) {
    pc.AfterAcquire? || pc.MarkRunning? || pc.Prepare? || pc.FileStep? || pc.Package? || pc.CancelSalvage?
  }

  /** What stays true of a worker's locals from one step to the next. */
  predicate Inv(w: WorkerState) {
    && (HoldsSlotAt(w.pc) ==> w.slotAcquired)
    && (w.slotAcquired ==> HoldsSlotAt(w.pc) || w.pc == Release)
    && (w.pc.FileStep? ==> w.pc.index <= |w.inputs|)
    && (w.pc.FileStep? || w.pc.Package? ==> w.workspace.Some?)
  }

  lemma LaunchInv(jobId: string)
    ensures Inv(Launch(jobId)) && !Launch(jobId).slotAcquired
  {
  }

  lemma NextInv(w: WorkerState, world: World, input: StepInput)
    requires Inv(w)
    ensures Inv(Next(w, world, input).0)
  {
    match w.pc {
      case FileStep(i) =>
        if i < |w.inputs| {
          NextAtFile(w, i, world, input);
        }
      case _ =>
    }
  }

  /**
   * A step changes no job but the worker's own, never adds or removes a
   * job, and never resizes the semaphore.
   */
  lemma NextChangesOnlyItsJob(w: WorkerState, world: World, input: StepInput)
    ensures var (w', world') := Next(w, world, input);
      && w'.jobId == w.jobId
      && world'.jobs.Keys == world.jobs.Keys
      && (forall k :: k in world.jobs && k != w.jobId ==> k in world'.jobs && world'.jobs[k] == world.jobs[k])
      && world'.gate.capacity == world.gate.capacity
  {
    match w.pc {
      case FileStep(i) =>
        if i < |w.inputs| {
          var (w', jobs') := FileNext(w, i, world.jobs, input);
          assert Next(w, world, input) == (w', world.(jobs := jobs'));
        }
      case _ =>
    }
  }

  /**
   * The worker's slot and the semaphore move together: the flag is set
   * only by a successful acquire, which takes a free slot, and cleared only
   * by the `finally` step, which gives one back; no other step touches the
   * semaphore.
   */
  lemma SlotAccounting(w: WorkerState, world: World, input: StepInput)
    requires Inv(w)
    requires world.gate.inUse >= Engine.Flag(w.slotAcquired)
    ensures var (w', world') := Next(w, world, input);
      && world'.gate.inUse == world.gate.inUse + Engine.Flag(w'.slotAcquired) - Engine.Flag(w.slotAcquired)
      && world'.gate.capacity == world.gate.capacity
      && (!w.slotAcquired && w'.slotAcquired ==> w.pc == Acquire && world'.gate.inUse <= world.gate.capacity)
      && (w.slotAcquired && !w'.slotAcquired ==> w.pc == Release && w'.pc == Finished)
      && (w'.pc == Finished ==> !w'.slotAcquired)
  {
    match w.pc {
      case FileStep(i) =>
        if i < |w.inputs| {
          NextAtFile(w, i, world, input);
        }
      case _ =>
    }
  }

  /** How far the worker is from the end of `_run_job`, by stage. */
  function Stage(pc: Pc): nat {
    match pc
    case Start => 12
    case FirstCheck => 11
    case MarkWaiting => 10
    case Poll => 9
    case Acquire => 8
    case AfterAcquire => 7
    case MarkRunning => 6
    case Prepare => 5
    case FileStep(_) => 4
    case Package => 3
    case CancelSalvage => 2
    case Release => 1
    case Finished => 0
  }

  /** `w'` is nearer the end than `w`: an earlier stage, or a later file of the same inputs. */
  predicate Closer(w': WorkerState, w: WorkerState) {
    || Stage(w'.pc) < Stage(w.pc)
    || (w'.pc.FileStep? && w.pc.FileStep? && w'.inputs == w.inputs && w.pc.index < w'.pc.index <= |w.inputs|)
  }

  /**
   * Apart from waiting for a slot, every step brings the worker nearer the
   * end; a refused acquire goes back to polling exactly when the semaphore
   * is full; a finished worker stays finished and touches nothing.
   */
  lemma NextProgresses(w: WorkerState, world: World, input: StepInput)
    requires Inv(w)
    ensures var (w', world') := Next(w, world, input);
      && (w.pc == Finished ==> w' == w && world' == world)
      && (w.pc != Finished && !(w.pc == Acquire && w'.pc == Poll) ==> Closer(w', w))
      && (w.pc == Acquire ==> (w'.pc == Poll <==> world.gate.inUse >= world.gate.capacity))
  {
    if w.pc.FileStep? {
      FileStepProgresses(w, w.pc.index, world, input);
    } else {
      ControlStepProgresses(w, world, input);
    }
  }

  lemma FileStepProgresses(w: WorkerState, i: nat, world: World, input: StepInput)
    requires Inv(w) && w.pc == FileStep(i)
    ensures Closer(Next(w, world, input).0, w)
  {
    if i < |w.inputs| {
      NextAtFile(w, i, world, input);
      FileNextCloser(w, i, world.jobs, input);
    }
  }

  lemma FileNextCloser(w: WorkerState, i: nat, jobs: map<string, JobRecord>, input: StepInput)
    requires w.pc == FileStep(i) && i < |w.inputs|
    ensures Closer(FileNext(w, i, jobs, input).0, w)
  {
  }

  lemma ControlStepProgresses(w: WorkerState, world: World, input: StepInput)
    requires !w.pc.FileStep?
    ensures var (w', world') := Next(w, world, input);
      && (w.pc == Finished ==> w' == w && world' == world)
      && (w.pc != Finished && !(w.pc == Acquire && w'.pc == Poll) ==> Stage(w'.pc) < Stage(w.pc))
      && (w.pc == Acquire ==> (w'.pc == Poll <==> world.gate.inUse >= world.gate.capacity))
  {
    if w.pc in {Start, FirstCheck, MarkWaiting, Poll, AfterAcquire, MarkRunning} {
      WaitStepProgresses(w, world, input);
    } else if w.pc in {Prepare, Package, CancelSalvage, Release} {
      WorkStepProgresses(w, world, input);
    } else if w.pc == Acquire {
      AcquireStepProgresses(w, world, input);
    }
  }

  /** The steps before processing starts, apart from the acquire itself. */
  lemma WaitStepProgresses(w: WorkerState, world: World, input: StepInput)
    requires w.pc in {Start, FirstCheck, MarkWaiting, Poll, AfterAcquire, MarkRunning}
    ensures Stage(Next(w, world, input).0.pc) < Stage(w.pc)
  {
  }

  /** The steps after the files: preparing, packaging, salvaging, releasing. */
  lemma WorkStepProgresses(w: WorkerState, world: World, input: StepInput)
    requires w.pc in {Prepare, Package, CancelSalvage, Release}
    ensures Stage(Next(w, world, input).0.pc) < Stage(w.pc)
  {
    if w.pc == Prepare {
      PrepareProgresses(w, world, input);
    } else if w.pc == Package {
      PackageProgresses(w, world, input);
    } else {
      FinallyProgresses(w, world, input);
    }
  }

  lemma PrepareProgresses(w: WorkerState, world: World, input: StepInput)
    requires w.pc == Prepare
    ensures Next(w, world, input).0.pc in {Release, FileStep(0)}
    ensures Stage(Next(w, world, input).0.pc) < Stage(w.pc)
  {
    var p := Next(w, world, input).0.pc;
    assert p == PrepareStep(w, world, input).0.pc;
  }

  lemma PackageProgresses(w: WorkerState, world: World, input: StepInput)
    requires w.pc == Package
    ensures Next(w, world, input).0.pc == Release
    ensures Stage(Next(w, world, input).0.pc) < Stage(w.pc)
  {
    var p := Next(w, world, input).0.pc;
    assert p == Release;
  }

  lemma FinallyProgresses(w: WorkerState, world: World, input: StepInput)
    requires w.pc == CancelSalvage || w.pc == Release
    ensures Next(w, world, input).0.pc == (if w.pc == Release then Finished else Release)
    ensures Stage(Next(w, world, input).0.pc) < Stage(w.pc)
  {
    var p := Next(w, world, input).0.pc;
    assert p == (if w.pc == Release then Finished else Release);
  }

  lemma AcquireStepProgresses(w: WorkerState, world: World, input: StepInput)
    requires w.pc == Acquire
    ensures var w' := Next(w, world, input).0;
      && (w'.pc == Poll <==> world.gate.inUse >= world.gate.capacity)
      && (w'.pc != Poll ==> Stage(w'.pc) < Stage(w.pc))
  {
  }

  /**
   * A cancel request is honoured at every check: before and while waiting
   * the job becomes cancelled at once; once it is processing, the next
   * progress callback diverts it to the cancellation handler, which marks
   * it cancelled and keeps the outputs and errors gathered so far.
   */
  lemma CancelHonoured(w: WorkerState, world: World, input: StepInput)
    requires CancelRequested(world.jobs, w.jobId)
    ensures var (w', world') := Next(w, world, input);
      && (w.pc in {FirstCheck, Poll, AfterAcquire} ==>
            world'.jobs[w.jobId].status == Cancelled && world'.jobs[w.jobId].message == CancelledMessage
            && (w'.pc == Finished || w'.pc == Release))
      && (w.pc.FileStep? && w.pc.index < |w.inputs| ==> w'.pc == CancelSalvage && world'.jobs == world.jobs)
      && (w.pc == CancelSalvage ==>
            && world'.jobs[w.jobId].status == Cancelled
            && world'.jobs[w.jobId].cancelRequested
            && world'.jobs[w.jobId].errors == w.errorItems
            && world'.jobs[w.jobId].outputCount == |Outputs(w, input.onDisk)|)
  {
  }

  /**
   * A run that reaches the archive step without a fault leaves the job
   * done, pointing at its archive, with every input counted, the outputs
   * that exist counted, and every file error listed; its snapshot then
   * offers the download and no longer offers cancelling.
   */
  lemma PackageMarksDone(w: WorkerState, world: World, input: StepInput)
    requires w.pc == Package && input.fault.None? && w.jobId in world.jobs
    ensures Next(w, world, input).0.pc == Release
    ensures var jobs' := Next(w, world, input).1.jobs;
      && w.jobId in jobs'
      && var job := jobs'[w.jobId];
      && job.status == Done && job.message == CompletedMessage
      && job.current == job.total == |w.inputs|
      && job.outputCount == |Outputs(w, input.onDisk)|
      && job.errors == w.errorItems
      && job.outputFilename == Some(ZipName(w.previewMode))
      && job.zipPath == Some(Join(w.workspace.GetOr(""), ZipName(w.previewMode)))
      && Serialize(job).downloadUrl == Some(DownloadUrl(job.jobId))
      && !Serialize(job).canCancel
  {
    var ch := DoneChanges(w, input.onDisk);
    var job := Apply(world.jobs[w.jobId], ch, input.now);
    assert Next(w, world, input) == (w.(pc := Release), Update(world, w.jobId, ch, input.now));
    assert Next(w, world, input).1.jobs == world.jobs[w.jobId := job];
    SerializeAgreesWithStatus(job);
  }

  /** At a file of the input list, `Next` is the file step. */
  lemma NextAtFile(w: WorkerState, i: nat, world: World, input: StepInput)
    requires w.pc == FileStep(i) && i < |w.inputs|
    ensures Next(w, world, input) == (FileNext(w, i, world.jobs, input).0, world.(jobs := FileNext(w, i, world.jobs, input).1))
  {
    var (w', jobs') := FileNext(w, i, world.jobs, input);
    assert Next(w, world, input) == (w', world.(jobs := jobs'));
  }

  /**
   * Each file step records the file's failure, if any, as an error item,
   * and a preview it wrote; without a cancel request it reports progress
   * `i + 1` of `n` under the file's name, leaving the status alone.
   */
  lemma FileStepRecords(w: WorkerState, i: nat, jobs: map<string, JobRecord>, input: StepInput)
    requires i < |w.inputs|
    ensures var source := Normalize(w.inputs[i]);
      var a := Engine.AttemptFile(source, Engine.Settings(w.outputDir, map[], w.previewMode), input.outcome);
      var (w', jobs') := FileNext(w, i, jobs, input);
      && w'.errorItems == w.errorItems + (if a.Failed? then [ErrorItem(source, a.message)] else [])
      && w'.previewPaths == w.previewPaths + (if a.Saved? && w.previewMode then [a.target] else [])
      && (!CancelRequested(jobs, w.jobId) && w.jobId in jobs ==>
            && w.jobId in jobs'
            && jobs'[w.jobId].current == i + 1
            && jobs'[w.jobId].total == |w.inputs|
            && jobs'[w.jobId].message == ProgressMessage(source, a)
            && jobs'[w.jobId].status == jobs[w.jobId].status)
  {
  }

  /** `Next` applied to a sequence of inputs, one step each. */
  function Run(w: WorkerState, world: World, inputs: seq<StepInput>): (WorkerState, World)
    decreases |inputs|
  {
    if |inputs| == 0 then (w, world)
    else
      var (w', world') := Next(w, world, inputs[0]);
      Run(w', world', inputs[1..])
  }

  /**
   * Over any run without other workers, the semaphore ends exactly as
   * many slots up as the worker holds at the end; a finished worker holds
   * none, so a run from launch to the end gives back every slot it took,
   * on every path.
   */
  lemma {:induction false} RunReturnsSlot(w: WorkerState, world: World, inputs: seq<StepInput>)
    decreases |inputs|
    requires Inv(w)
    requires world.gate.inUse >= Engine.Flag(w.slotAcquired)
    ensures var (w', world') := Run(w, world, inputs);
      && Inv(w')
      && world'.gate.inUse == world.gate.inUse + Engine.Flag(w'.slotAcquired) - Engine.Flag(w.slotAcquired)
      && world'.gate.capacity == world.gate.capacity
      && (w'.pc == Finished ==> !w'.slotAcquired)
  {
    if |inputs| > 0 {
      var (w1, world1) := Next(w, world, inputs[0]);
      SlotAccounting(w, world, inputs[0]);
      NextInv(w, world, inputs[0]);
      RunReturnsSlot(w1, world1, inputs[1..]);
    } else {
      assert w.pc == Finished ==> !w.slotAcquired;
    }
  }

  /**
   * The status regression at `_run_job`'s "waiting" update: a cancel
   * accepted between the first check and that update turns the job
   * cancelled, and the update turns it back to waiting. The next check in
   * the slot loop sets it to cancelled again.
   */
  lemma WaitingOverwritesCancel(w: WorkerState, world: World, t: real, input: StepInput, input2: StepInput)
    requires w.pc == MarkWaiting && w.jobId in world.jobs && world.jobs[w.jobId].status == Queued
    ensures var (cancelled, _, result) := CancelIn(world.jobs, w.jobId, t);
      var (w1, world1) := Next(w, world.(jobs := cancelled), input);
      var (w2, world2) := Next(w1, world1, input2);
      && result == Accepted && cancelled[w.jobId].status == Cancelled
      && world1.jobs[w.jobId].status == Waiting && world1.jobs[w.jobId].cancelRequested
      && w1.pc == Poll
      && world2.jobs[w.jobId].status == Cancelled
  {
  }

  /**
   * The status regression at the "done" update: a cancel accepted after
   * the last progress check moves the running job to cancelling, and the
   * final update then marks it done, with the request still recorded.
   * Done is final, so the request is never honoured.
   */
  lemma DoneOverwritesCancelling(w: WorkerState, world: World, t: real, input: StepInput, later: real)
    requires w.pc == Package && input.fault.None?
    requires w.jobId in world.jobs && world.jobs[w.jobId].status == Running
    ensures var (cancelling, _, result) := CancelIn(world.jobs, w.jobId, t);
      var (w1, world1) := Next(w, world.(jobs := cancelling), input);
      && result == Accepted && cancelling[w.jobId].status == Cancelling
      && world1.jobs[w.jobId].status == Done && world1.jobs[w.jobId].cancelRequested
      && CancelIn(world1.jobs, w.jobId, later).2 == Terminal
  {
  }

  /**
   * One step of `_run_job` on the shared job table and semaphore, the
   * same step `Next` describes.
   */
  method Step(w: WorkerState, table: JobStore.JobTable, gate: Gate, input: StepInput) returns (w': WorkerState)
    requires gate.Valid()
    modifies table, gate
    ensures gate.Valid()
    ensures (w', World(table.jobs, gate.State())) == Next(w, World(old(table.jobs), old(gate.State())), input)
  {
    var id := w.jobId;
    var now := input.now;
    var cancelled: bool;
    var ignored: Option<JobRecord>;
    match w.pc
    case Start =>
      if id !in table.jobs {
        return w.(pc := Finished);
      }
      var job := table.jobs[id];
      w' := w.(pc := FirstCheck, previewMode := job.previewMode, inputs := job.inputPaths, workspace := job.workspaceDir);
    case FirstCheck =>
      cancelled := table.IsCancelRequested(id);
      if cancelled {
        ignored := table.UpdateJob(id, CancelChanges, now);
        return w.(pc := Finished);
      }
      w' := w.(pc := MarkWaiting);
    case MarkWaiting =>
      ignored := table.UpdateJob(id, Changes(status := Some(Waiting), message := Some(WaitingMessage)), now);
      w' := w.(pc := Poll);
    case Poll =>
      cancelled := table.IsCancelRequested(id);
      if cancelled {
        ignored := table.UpdateJob(id, CancelChanges, now);
        return w.(pc := Release);
      }
      w' := w.(pc := Acquire);
    case Acquire =>
      var ok := gate.TryAcquire();
      w' := if ok then w.(pc := AfterAcquire, slotAcquired := true) else w.(pc := Poll);
    case AfterAcquire =>
      cancelled := table.IsCancelRequested(id);
      if cancelled {
        ignored := table.UpdateJob(id, CancelChanges, now);
        return w.(pc := Release);
      }
      w' := w.(pc := MarkRunning);
    case MarkRunning =>
      ignored := table.UpdateJob(id, Changes(status := Some(Running), message := Some(StartedMessage)), now);
      w' := w.(pc := Prepare);
    case Prepare =>
      if w.workspace.None? || input.fault.Some? {
        var m := if w.workspace.None? then MissingWorkspace else input.fault.value;
        ignored := table.UpdateJob(id, Changes(status := Some(Error), message := Some(FailedMessage(m))), now);
        return w.(pc := Release);
      }
      var ws := w.workspace.value;
      w' := w.(pc := FileStep(0),
               previewDir := if w.previewMode then Some(Join(ws, "preview")) else None,
               outputDir := if w.previewMode then None else Some(Join(ws, "output")));
    case FileStep(i) =>
      if i < |w.inputs| {
        w' := FileStepOn(w, i, table, input);
      } else {
        w' := w.(pc := Package);
      }
    case Package =>
      if input.fault.Some? {
        ignored := table.UpdateJob(id, Changes(status := Some(Error), message := Some(FailedMessage(input.fault.value))), now);
        return w.(pc := Release);
      }
      ignored := table.UpdateJob(id, DoneChanges(w, input.onDisk), now);
      w' := w.(pc := Release);
    case CancelSalvage =>
      ignored := table.UpdateJob(id, SalvageChanges(w, input.onDisk), now);
      w' := w.(pc := Release);
    case Release =>
      if w.slotAcquired {
        var ok := gate.Release();
        w' := w.(pc := Finished, slotAcquired := false);
      } else {
        w' := w.(pc := Finished);
      }
    case Finished =>
      w' := w;
  }

  /** `FileNext` on the shared job table. */
  method FileStepOn(w: WorkerState, i: nat, table: JobStore.JobTable, input: StepInput) returns (w': WorkerState)
    requires i < |w.inputs|
    modifies table
    ensures (w', table.jobs) == FileNext(w, i, old(table.jobs), input)
  {
    var source := Normalize(w.inputs[i]);
    var a := Engine.AttemptFile(source, Engine.Settings(w.outputDir, map[], w.previewMode), input.outcome);
    w' := w.(
      errorItems := w.errorItems + (if a.Failed? then [ErrorItem(source, a.message)] else []),
      previewPaths := w.previewPaths + (if a.Saved? && w.previewMode then [a.target] else []));
    var cancelled := table.IsCancelRequested(w.jobId);
    if cancelled {
      return w'.(pc := CancelSalvage);
    }
    var ch := Changes(current := Some(i + 1), total := Some(|w.inputs|), message := Some(ProgressMessage(source, a)));
    var ignored := table.UpdateJob(w.jobId, ch, input.now);
    w' := w'.(pc := FileStep(i + 1));
  }
}
