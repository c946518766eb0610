# semi-utils job orchestration, engine loop and front-end rules in Dafny

semi-utils adds camera watermarks, margins, shadows and layouts to photos.
It has two front ends over one engine:

- a small HTTP server (`web_gui_app.py`) that takes a batch of uploads, files
  it as a job, runs the job on a worker thread behind a bounded semaphore,
  and lets the client poll, cancel and download the result as a zip;
- a Tk desktop window (`gui_app.py`) that keeps a list of input files and
  starts the engine on them.

The engine (`engine.py`) builds the chain of image processors from the
configuration, works out where each output goes, and runs the batch one
file at a time, reporting progress and errors through callbacks.
`runtime_paths.py` finds bundled resources whether the program runs from
source or as a frozen executable.

This project models those parts and proves what they promise. It is
organised as follows:

- `Wrappers` (`wrappers.dfy`): `Option` and its helpers
- `Text` (`text.dfy`): Python's `str(int)`, `int(str)` for decimal strings of at most 4300 digits (the default `sys.get_int_max_str_digits()`), `strip`, `lower` and `split`
- `Paths` (`paths.dfy`): POSIX `pathlib`: components, `name`, `parent`, `stem`, `suffix`, joining and normalisation
- `Engine` (`engine.dfy`): `build_processor_chain`, `_resolve_output_path`, `_process_one` and the `process_images` loop with its callbacks
- `WebHelpers` (`webhelpers.dfy`): `_parse_int`, the concurrency limit from the environment, `_unique_path`, `_write_with_limit`, `_extract_uploads`, `_count_output_files`, the entry names of `_create_zip`
- `Jobs` (`jobs.dfy`): the job status values, `JobRecord`, `_update_job`, `_request_cancel`, expiry and `_serialize_job` as functions on records and on the job table
- `JobStore` (`jobstore.dfy`): the lock-guarded job table as a class whose methods update its map
- `Slots` (`slots.dfy`): the `BoundedSemaphore` of running slots as a class
- `Worker` (`worker.dfy`): `_run_job` as a step machine, one step per semaphore call, job update or local phase, plus the methods that run a step on the table and the semaphore
- `Http` (`http.dfy`): `do_GET`, `do_POST`, `_handle_get_job` and `_handle_cancel_job`
- `Gui` (`gui.dfy`): `should_fallback_to_web`, and the desktop window's input list and start button as a class
- `RuntimePaths` (`runtimepaths.dfy`): the three functions of `runtime_paths.py`

Conventions:

- Time is a `real` parameter in seconds, the value `time.time()` would return.
- The file system is a set of existing paths.
- The outcome of each image operation is an input to the model: the pixels written, the verdict of PIL's `verify`, or the exception raised.
- `_run_job` runs on its own thread. Between two of its steps, a cancel request or the reaper may change the table. The worker lemmas take the table as it is at each step, so they hold whatever happened in between.

A job's status can move backwards: two updates in `_run_job` overwrite a
status set by a concurrent cancel request (web_gui_app.py:406 and 490-500):

- `Worker.WaitingOverwritesCancel` shows the "waiting" update undoing a cancel.
- `Worker.DoneOverwritesCancelling` shows the "done" update overwriting "cancelling".

The model follows the code.

## Model

| member | source | states |
|---|---|---|
| `Text.ParseDecimalOfIntToString` | web_gui_app.py:91-95 | `int()` reads back every integer `str()` writes, that is every integer of at most 4300 digits |
| `Text.ParseDecimalNeedsDigit` | web_gui_app.py:91-95 | `int()` rejects a string with no ASCII digit, so `_parse_int` falls back to its default |
| `Text.ParseDecimalRejectsStray` | web_gui_app.py:91-95 | `int()` rejects a string holding a character that is neither a digit, an underscore, a sign nor whitespace, such as "12abc" or "1.5" |
| `Text.ParseDecimalRejects` | web_gui_app.py:91-95 | `int()` rejects every string without an ASCII digit or with such a stray character |
| `Text.ParseDecimalRejectsLong` | web_gui_app.py:91-95 | `int()` raises on a number of more than 4300 digits, underscores not counted, whatever its sign |
| `Text.SplitJoin` | web_gui_app.py:998-999 | `split` on a separator undoes joining parts that do not contain it |
| `Text.JoinSplit` | web_gui_app.py:1137 | joining the pieces of `split` gives back the original string |
| `Paths.NameOfJoin` | engine.py:328 | `(d / c).name == c` for a single component `c` |
| `Paths.ParentOfJoin` | web_gui_app.py:140 | the parent of `d / c` is `d`, normalised |
| `Paths.JoinParentName` | engine.py:329 | `p.parent / p.name` is `p`, normalised, whenever `p` has a name |
| `Paths.NormalizeIdempotent` | runtime_paths.py:25-28 | normalising a path twice is the same as once |
| `Paths.StemThenSuffix` | web_gui_app.py:132-133 | a name is its stem followed by its suffix |
| `Engine.ChainShape` | engine.py:301-317 | the chain has exactly one layout processor, taken from the registry with the simple layout as fallback. Shadow comes first and only when enabled and the layout is not square. Margin follows the layout only when enabled and the layout id contains "watermark". Padding comes last only when enabled and the layout is not square. The length is one plus the number of extras |
| `Engine.BuildProcessorChain` | engine.py:301-317 | appending step by step yields exactly the chain described by `ChainShape` |
| `Engine.ResolveOutputPath` | engine.py:320-329 | the output map wins. Otherwise there is an output exactly when an output directory is given or the source has a name. That output keeps the source's name and lies in the output directory, or beside the source when there is none |
| `Engine.AttemptFileOutcome` | engine.py:336-351 | a file fails exactly when processing raises or, outside preview, it has no output path. Preview reports the temporary target; a normal run reports the resolved output |
| `Engine.FileEvents` | engine.py:385-415 | each file ends with exactly one progress callback carrying its error; a failure is reported to the error callback first |
| `Engine.FileEventsProgress` | engine.py:408-415 | one file contributes exactly one progress event and exactly its own failure to the error list |
| `Engine.ProcessImages` | engine.py:354-417 | the callbacks and the returned errors are those of processing every normalised input in order |
| `Engine.ProcessSources` | engine.py:382-417 | the loop builds the event trace and the error list file by file, as `RunEvents` and `Failures` define them |
| `Engine.Report` | engine.py:405-415 | the callbacks one iteration makes and the error it records |
| `Engine.ProgressOncePerInput` | engine.py:414-415 | the progress callback fires once per input, in order, with indices 1..n, the total and that input's error |
| `Engine.ErrorReportsAreFailures` | engine.py:408-413 | the error callback sees exactly the errors the engine returns, in the same order |
| `Engine.FailuresAreFailingInputs` | engine.py:408-413 | the returned errors are exactly the failing inputs with their messages: one per failing input, in input order |
| `Engine.FailingIndices` | engine.py:408-413 | the positions of the failing inputs, each once and in increasing order |
| `Engine.FailuresFollowFailingIndices` | engine.py:408-413 | the j-th returned error is the source and message of the j-th failing input |
| `WebHelpers.Clamp` | web_gui_app.py:96-100 | the result lies within the given bounds, and a value already inside them is returned unchanged |
| `WebHelpers.ParseIntReadsNumbers` | web_gui_app.py:91-100 | a number `str()` writes is parsed and then clamped |
| `WebHelpers.ParseIntFallsBackOnLongNumbers` | web_gui_app.py:91-100 | a number of more than 4300 digits gives the clamped default, not a clamped huge value |
| `WebHelpers.ParseIntFallsBack` | web_gui_app.py:91-100 | a missing value, one without an ASCII digit, or one holding a character no integer literal has ("12abc", "1.5") gives the clamped default |
| `WebHelpers.InitialMaxConcurrentJobs` | web_gui_app.py:49-54 | the initial concurrency limit is always within 1..16 |
| `WebHelpers.InitialMaxConcurrentJobsDefault` | web_gui_app.py:41-54 | with no environment value, or one without an ASCII digit or with a character no integer literal has, the limit is 2 |
| `WebHelpers.InitialMaxConcurrentJobsReadsNumber` | web_gui_app.py:49-54 | an environment value in 1..16 is taken as is |
| `WebHelpers.CandidateIsComponent` | web_gui_app.py:130-136 | every candidate name for an upload is a single path component |
| `WebHelpers.CandidateInjective` | web_gui_app.py:136-138 | different attempts give different candidate names, so the search meets a fresh one |
| `WebHelpers.UniquePath` | web_gui_app.py:130-140 | the chosen name was not used before: the original name if free, else the first free `stem_k.suffix`. It is added to the used set and placed in the base directory |
| `WebHelpers.FirstUnused` | web_gui_app.py:134-138 | the loop stops at the first candidate not in use |
| `WebHelpers.WriteWithLimit` | web_gui_app.py:237-247 | an upload within the limit is copied whole. A larger one raises after writing the whole 1 MiB chunks that fit. Nothing beyond the source is ever written |
| `WebHelpers.UploadItems` | web_gui_app.py:256-260 | exactly the form items with a filename are kept, and no more items than the form has |
| `WebHelpers.UploadItemsAppend` | web_gui_app.py:256-260 | the filter keeps the form's order: filtering two runs of fields gives the first run's uploads, then the second's |
| `WebHelpers.UploadItemsSingle` | web_gui_app.py:256-260 | a single field is kept exactly when it has a filename |
| `WebHelpers.StoreUpload` | web_gui_app.py:269-284 | one upload fails for its extension, its size or its image check, in that order. A stored upload gets the first free candidate for its own file name, in the input directory |
| `WebHelpers.FirstErrorIsFirst` | web_gui_app.py:268-284 | the reported error is that of the first failing upload, and there is none exactly when every upload passes |
| `WebHelpers.ExtractUploads` | web_gui_app.py:255-286 | a request is rejected when it has no files, when it has too many, or for the first failing upload. Otherwise every upload is stored in the input directory, in form order, the k-th under the first candidate for its file name that no earlier upload took |
| `WebHelpers.StoreUploads` | web_gui_app.py:268-286 | the loop stores every upload or stops at the first failure. The k-th path is the k-th upload's, under the first candidate for its file name that no earlier upload took; stored names are distinct |
| `WebHelpers.Existing` | web_gui_app.py:385-386 | exactly the listed paths that exist are kept, and no more than were listed |
| `WebHelpers.ExistingAppend` | web_gui_app.py:385-386 | the filter keeps the list's order: filtering two runs gives the first run's existing paths, then the second's |
| `WebHelpers.ExistingSingle` | web_gui_app.py:385-386 | a single path is kept exactly when it exists |
| `WebHelpers.CountOutputFiles` | web_gui_app.py:384-393 | the count is the number of output files that exist |
| `WebHelpers.OutputFilesBounded` | web_gui_app.py:384-393 | there are at most as many outputs as previews (preview mode) or inputs, and every one exists |
| `WebHelpers.ZipEntriesDistinct` | web_gui_app.py:289-293 | the report's entry never equals a file's entry, and the archive entries are distinct exactly when the files' names are |
| `Jobs.StatusNamesDistinct` | web_gui_app.py:210-234 | distinct statuses serialise to distinct names |
| `Jobs.CancellableIffNotTerminal` | web_gui_app.py:230 | a job offers cancelling exactly when it is not done, error or cancelled |
| `Jobs.ApplySetsOnlyNamedFields` | web_gui_app.py:344-352 | an update sets the timestamp and each field it names: status, message, progress, total, output count, errors, archive path and name, cancel flag. Every field it does not name, and the id, creation time, mode, workspace, inputs and preview settings, stay as they were. An empty update only moves the timestamp |
| `Jobs.ApplyIdempotent` | web_gui_app.py:344-352 | repeating an update at the same instant changes nothing more |
| `Jobs.UpdatedJobsFrame` | web_gui_app.py:344-352 | updating an unknown job changes nothing; updating a known one changes only that record |
| `Jobs.CancelLeavesFinishedJobsAlone` | web_gui_app.py:366-369 | a cancel of a finished job changes nothing and reports "already cancelled" or "terminal" |
| `Jobs.CancelAcceptedEffect` | web_gui_app.py:370-381 | a cancel of an unfinished job records the request. A queued or waiting job becomes cancelled; a running or cancelling one becomes cancelling. Nothing else changes but the timestamp |
| `Jobs.CancelInFrame` | web_gui_app.py:361-381 | a cancel changes no other job and changes its own only when accepted; an unknown id is "not found" |
| `Jobs.AcceptedCancelIsSeen` | web_gui_app.py:355-358 | after an accepted cancel, the worker's cancellation check sees it |
| `Jobs.UnexpiredKeepsTheRest` | web_gui_app.py:296-312 | cleanup removes exactly the finished jobs untouched for the TTL, never an unfinished one, and leaves the rest as they were |
| `Jobs.UnexpiredIdempotent` | web_gui_app.py:296-312 | a second cleanup at the same instant removes nothing |
| `Jobs.SerializeAgreesWithStatus` | web_gui_app.py:210-234 | the snapshot offers cancel exactly for unfinished jobs and the download exactly for done ones. It lists every error, and its status string names the job's status |
| `JobStore.JobTable.constructor` | web_gui_app.py:46 | the table starts empty |
| `JobStore.JobTable.Insert` | web_gui_app.py:1110-1111 | the new record is stored under its id |
| `JobStore.JobTable.UpdateJob` | web_gui_app.py:344-352 | the table becomes the updated table; the result is the new record, or nothing exactly when the id is unknown |
| `JobStore.JobTable.RequestCancel` | web_gui_app.py:361-381 | the table, the record and the result are those of the cancel rule |
| `JobStore.JobTable.CleanupExpired` | web_gui_app.py:296-312 | the expired jobs are removed and their ids returned for workspace removal |
| `JobStore.JobTable.CollectExpired` | web_gui_app.py:300-306 | the ids collected are exactly those of the expired jobs |
| `Slots.Gate.constructor` | web_gui_app.py:54-55 | a fresh semaphore has capacity `max(1, limit)` and no slot in use |
| `Slots.Gate.TryAcquire` | web_gui_app.py:415-421 | a non-blocking acquire succeeds exactly when a slot is free, and then takes it |
| `Slots.Gate.Release` | web_gui_app.py:512-514 | a release gives a slot back; releasing with none in use is refused, as a bounded semaphore raises |
| `Slots.Gate.Resize` | web_gui_app.py:103-107 | setting the limit replaces the semaphore with a fresh one of capacity `max(1, limit)` |
| `Worker.Update` | web_gui_app.py:344-352 | a worker's update touches only its own job and leaves the semaphore alone |
| `Worker.FileNext` | web_gui_app.py:439-462 | a file step changes only the worker's position, errors and previews, and only its own job. It moves to the cancellation handler exactly when a cancel was requested |
| `Worker.PrepareStep` | web_gui_app.py:429-437 | when the job record read at the start has no workspace directory, or creating the output or preview directory raises, the job is marked failed with that message and the worker goes to its `finally`. Otherwise the table is untouched and the work starts at the first file, writing into the workspace's `preview` or `output` directory |
| `Worker.LaunchInv` | web_gui_app.py:396-400 | a new worker holds no slot |
| `Worker.NextInv` | web_gui_app.py:396-514 | every step keeps the worker's invariant: the worker holds a slot in every phase from a successful acquire through packaging or cancellation handling, and holds none outside those phases and the `finally`. The file index stays within the inputs, and a workspace exists while files are processed or packaged |
| `Worker.NextChangesOnlyItsJob` | web_gui_app.py:396-514 | no step adds or removes jobs or changes another job's record or the semaphore's capacity |
| `Worker.SlotAccounting` | web_gui_app.py:415-421 | the semaphore's use moves exactly with the worker's slot flag. Only a successful acquire takes a slot, within capacity. Only the `finally` step gives it back, and then the worker is finished |
| `Worker.RunReturnsSlot` | web_gui_app.py:512-514 | over any run, the semaphore ends as many slots up as the worker holds; a finished worker holds none |
| `Worker.NextProgresses` | web_gui_app.py:396-514 | every step but a failed acquire brings the worker closer to the end. A finished worker stays put. An acquire fails exactly when no slot is free |
| `Worker.CancelHonoured` | web_gui_app.py:402-425 | a recorded cancel is acted on at every check. Before and while waiting, the job becomes cancelled. During processing, the next progress callback hands over to the cancellation handler, which keeps the errors and counts the outputs |
| `Worker.PackageMarksDone` | web_gui_app.py:488-500 | a fault-free packaging step marks the job done with every input counted, its outputs, its errors and its archive. The snapshot then offers the download and no cancel |
| `Worker.FileStepRecords` | web_gui_app.py:439-462 | a file step records the file's error and preview, and sets the job's progress to that file with its message |
| `Worker.WaitingOverwritesCancel` | web_gui_app.py:406 | a cancel accepted just before the "waiting" update is overwritten back to waiting; the next check in the slot loop cancels again |
| `Worker.DoneOverwritesCancelling` | web_gui_app.py:490-500 | a cancel accepted after the last progress check is overwritten by "done" and can never be honoured |
| `Worker.Step` | web_gui_app.py:396-514 | one step on the shared table and semaphore does what `Next` describes |
| `Worker.FileStepOn` | web_gui_app.py:439-462 | one file step on the shared table does what `FileNext` describes |
| `Http.PathOnly` | web_gui_app.py:998-999 | the path never contains a query mark |
| `Http.QueryIgnored` | web_gui_app.py:998-999 | a query string does not change the path routed on |
| `Http.DoGetRoutes` | web_gui_app.py:1001-1015 | GET serves the page at `/`, the health check with the whole-second clock at `/health`, and job endpoints under `/api/jobs/`. Anything else is a plain 404, whatever the query |
| `Http.UrlsRouteBack` | web_gui_app.py:1121-1123 | the status, download and cancel URLs a snapshot hands out route back to that job's endpoints |
| `Http.GetJobServes` | web_gui_app.py:1135-1175 | an unknown job is 404 and a known one gives its snapshot. The download is served exactly for a done job whose archive exists, otherwise 409 |
| `Http.CancelEndpoint` | web_gui_app.py:1177-1194 | cancelling through the URL performs the cancel rule. An unknown job is 404 and a done or failed one is 409, unchanged. Otherwise the reply is 202 with the job cancelled or cancelling |
| `Http.HandleCancel` | web_gui_app.py:1177-1194 | the handler's table and reply are those of the cancel rule; no job is added or removed |
| `Http.AdmissionGates` | web_gui_app.py:1023-1074 | a submission passes exactly when all of these hold: it is for `/api/process`; its length is in (0, 512 MiB]; it is multipart; fewer than 500 jobs are live; the form parses. Every refusal is an error reply |
| `Http.LongContentLengthIsEmpty` | web_gui_app.py:1023-1029 | a `Content-Length` of more than 4300 digits parses as 0, so the request is refused as an empty body (400), not as too large |
| `Http.Submit` | web_gui_app.py:1076-1129 | a refused submission leaves the table alone. An accepted one files a queued job whose inputs are the uploads in form order, each under the name `_unique_path` picks for it, and replies 202 with its URLs. An invalid upload is 400. A job is filed only when fewer than 500 jobs were live at the check |
| `Http.DoPost` | web_gui_app.py:1017-1133 | a POST to a cancel URL is the cancel endpoint and anything else is a submission; a job is filed only when fewer than 500 jobs were live at the check |
| `Http.AdmittedTogetherPassTheCap` | web_gui_app.py:1052-1110 | two submissions checked against the same 499 live jobs are both admitted, and filing both leaves 501 jobs: the cap bounds what each check sees, not the table |
| `Gui.FallbackExamples` | tests/test_gui_fallback.py:4-17 | macOS 26 with Tk 8.5 falls back to the web front end; Tk 8.6, macOS 14 and Linux do not |
| `Gui.FallbackMonotone` | gui_app.py:22-24 | fallback happens only on macOS, and persists on later macOS versions and older Tk versions |
| `Gui.AddDistinctKeepsPrefix` | gui_app.py:330-343 | adding files never reorders or drops files already listed |
| `Gui.AddDistinctKeepsDistinct` | gui_app.py:337-340 | the input list never holds a path twice |
| `Gui.AddDistinctMembers` | gui_app.py:330-343 | after adding, the list holds exactly the old entries and the normalised selected paths |
| `Gui.AddDistinctPresent` | gui_app.py:337-340 | adding files already listed changes nothing |
| `Gui.AddDistinctIdempotent` | gui_app.py:330-343 | adding the same selection twice is the same as once |
| `Gui.DeleteBelowDropped` | gui_app.py:349-351 | deleting in descending index order removes exactly the selected entries |
| `Gui.KeepMembers` | gui_app.py:345-352 | an entry survives removal exactly when one of its unselected positions holds it |
| `Gui.GuiApp.constructor` | gui_app.py:40-43 | a new window has no inputs and no worker |
| `Gui.GuiApp.AddFiles` | gui_app.py:330-343 | the input list grows by the new normalised paths, without duplicates |
| `Gui.GuiApp.RemoveSelected` | gui_app.py:345-352 | exactly the selected entries are removed, the rest keep their order |
| `Gui.GuiApp.ClearInputs` | gui_app.py:354-357 | the list is emptied and the start button disabled |
| `Gui.GuiApp.StartProcessing` | gui_app.py:408-448 | a run starts exactly when the start rule allows it and the configuration is valid. It takes the current inputs, and the button is disabled while it runs |
| `Gui.GuiApp.WorkerExited` | gui_app.py:518-530 | a finished or failed worker clears the running state and keeps the inputs |
| `RuntimePaths.FrozenBaseHoldsExecutable` | runtime_paths.py:11-17 | without a bundle directory, a frozen program's base is the directory holding the executable |
| `RuntimePaths.BaseDirCases` | runtime_paths.py:11-17 | from source the base is the project root. Frozen, it is the bundle directory if set, otherwise the executable's directory |
| `RuntimePaths.FirstExisting` | runtime_paths.py:29-38 | the first root under which the path exists, and none before it |
| `RuntimePaths.AbsoluteUnchanged` | runtime_paths.py:21-23 | an absolute path is returned as it is |
| `RuntimePaths.DotSlashAlreadyGone` | runtime_paths.py:25-28 | a normalised path never starts with `./`, so stripping it is a no-op |
| `RuntimePaths.FirstMatchWins` | runtime_paths.py:28-40 | the working directory, then the base, then the project root; when none holds the path, the base |
| `RuntimePaths.ShippedResourceFound` | runtime_paths.py:20-40 | a resource shipped under the base or project root is found, with its own name |
| `RuntimePaths.ResolveExiftoolEnvPath` | runtime_paths.py:43-47 | an empty or missing variable gives nothing; otherwise the path as given |

## Left out

- Threads and locks: the job table is one object whose methods run whole. `_run_job` is a sequence of steps between which other parties may change the table. The model does not capture interleavings inside a step.
- The cancel checks of `_run_job` (before waiting, in the slot loop, after acquiring, and in the progress callback) take `JOBS_LOCK` twice in the source: once in `_is_cancel_requested`, once for the update that follows. The model runs both as one step, so it does not capture a change to the job between the check and the update.
- `Http.DoPost` and `Http.Submit` run as one step, but the source counts the live jobs under one hold of the lock and files the new job under a later one, with the uploads stored in between. The server handles requests on parallel threads, so concurrent submissions can push the table past 500 jobs (`Http.AdmittedTogetherPassTheCap`). The model promises only that each job was admitted against fewer than 500 live jobs.
- The 0.2 second sleep between acquire attempts is left out, because time passing does not change the outcome of an attempt.
- `_cleanup_loop` and its 60 second sleep are left out; one sweep is `JobStore.JobTable.CleanupExpired`.
- Removing workspaces (`shutil.rmtree`) is left out: the model returns the ids whose workspaces would be removed, but not the file system effect.
- The HTTP server's socket plumbing is left out: headers, JSON encoding, sending files, and `cgi.FieldStorage` parsing. A request is the parsed fields, and a form parse error is one of its inputs.
- `_build_config`, `config_data` and the preview size and quality options are carried as opaque data; what the engine does with them is not modelled.
- The 500 "internal_error" reply of `do_POST` and the workspace removal that goes with it are not modelled, because they only happen on unexpected exceptions.
- Image processing itself is out of scope: PIL, the processors and EXIF. The outcome of each file, and the verdict of `_validate_image`, are inputs.
- The bytes of the zip file are not modelled; only its entry names are.
- `json.dumps`, `tempfile.mkdtemp`/`mkstemp` and `uuid4` are parameters: the job id, the workspace and the preview file name are inputs.
- The rounded progress percentage of `_serialize_job` and of the GUI's progress bar is not modelled; the model keeps the current and total counts.
- `Path.resolve`, `expanduser`, symbolic links, `..` and Windows paths are not modelled; paths are POSIX strings split into components.
- `Paths.Normalize` collapses a leading `//` to `/`, while POSIX `pathlib` keeps exactly two leading slashes.
- `Text.IntToString`: writes integers of any size, while `str()` raises beyond 4300 digits. No number the program writes comes near that.
- `Text.ParseDecimalNeedsDigit`: digits are ASCII only. Python's `int()` also reads other Unicode decimal digits (such as Arabic-Indic `٣`), which the model rejects. Whitespace follows `str.isspace`, including U+00A0 and the other Unicode spaces.
- `WebHelpers.ParseIntFallsBack`: no lemma covers malformed arrangements of digits, signs and underscores (`--3`, `1__2`, `3 4`). The model's `int()` rejects them as Python does, and `_parse_int` then gives the default.
- `WebHelpers.InitialMaxConcurrentJobsDefault`: the same gap as `WebHelpers.ParseIntFallsBack`.
- The callbacks of `process_images` are optional in the source, and a missing one is not called. The model always records the callback events; a caller without callbacks ignores them.
- `Slots.Gate.Release`: does not model a worker that started before `_set_max_concurrent_jobs` swapped the semaphore and releases into the new one.
- The branch of `_request_cancel` that answers "Cancellation requested" for a status outside the known set cannot occur, because every status is one of the seven.
- `Http.DoGetRoutes`: the health check's `int(time.time())` is the floor of a non-negative clock reading.
- `WebHelpers.StoreUpload`: does not model the partial file left on disk when an upload is rejected.
- The HTML page (`_build_html`) and the GUI's other controls are not modelled: margins, logos, the preview list, the log and the event queue polling.
- Logging (`logging_setup.py`) is not part of this model.
