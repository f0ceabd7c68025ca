# ReportGeneratorBackend: the report-job pipeline in Dafny

This project models the job pipeline of a small ASP.NET report backend:
- The report-job record and its three-valued status.
- The background processor. In each iteration of its loop, it claims the oldest `Pending` job. It moves the job to `Processing`, saves it and broadcasts it. It then waits for the simulated work, moves the job to `Completed`, saves it and broadcasts it again. Any exception ends the iteration and the loop goes round again.
- The two `/reports` HTTP handlers: create and list.

Modules:
- `ReportJobs` models `Models/ReportJob.cs` as datatypes. It covers the status enum with its underlying values, the setter for `Status`, and the record's defaults.
- `Store` holds the in-memory stand-ins for the database context and the broadcast hub:
  - `Database` is a class whose `rows: seq<ReportJob>` keeps identifiers unique.
  - `Hub` is a class whose `sent: seq<ReportJob>` is the log of broadcast snapshots.
  - Each operation takes a flag that says whether it throws. An operation that throws changes nothing.
- `Processor` models `BackgroundService/ReportProcessorService.cs`:
  - `OldestPending` is the query.
  - `Iterate` is one iteration as a function of the table. A `FailurePoint` names the step that throws.
  - `Run` folds `Iterate` over a failure schedule.
  - `RunIteration` and `ExecuteAsync` are the imperative loop body and the loop. Each is proved to equal `Iterate` or `Run`.
  - Lemmas state what runs guarantee.
- `Endpoints` models the two handlers in `Program.cs`. The fresh `Guid`, the current time and each collaborator's failure are parameters.
- `Pipeline` links the create handler to the processor's queue.

Timestamps (`DateTime`) are modelled as ticks, of type `int`. The `Guid` is a `nat`, with 0 for `Guid.Empty`.

Two behaviours of the code are easy to overlook, and the model keeps both:
- A failed broadcast is not ignored where it is sent: it aborts the remaining steps of the iteration or the handler. In the processor, the loop's catch then logs it and goes round again; a failed `Processing` broadcast has stranded the job in `Processing`. A failed `Completed` broadcast also aborts the iteration, but the job has already been saved as `Completed`. In the create handler the caller gets a 500 although the job stays stored.
- More than one job can be in `Processing` at once. Each iteration that fails after its `Processing` save and before its `Completed` save leaves one more job there (`StrandedJobsAccumulate`). Runs without such failures keep `Processing` empty between iterations (`RunWithoutStrandingKeepsNoneProcessing`).

## Model

| member | source | states |
|---|---|---|
| `ReportJobs.Ordinal` | ReportGeneratorBackend/Models/ReportJob.cs:20-25 | the enum has exactly three values; each one's underlying value is below 3, and `FromOrdinal` maps that value back to the same status |
| `ReportJobs.FromOrdinal` | ReportGeneratorBackend/Models/ReportJob.cs:20-25 | exactly 0, 1 and 2 name a status; 0 is `Pending`, the first declared, and 2 is `Completed` |
| `ReportJobs.TransitionsAreTheChain` | ReportGeneratorBackend/Models/ReportJob.cs:20-25 | the single-step forward transitions are exactly Pending→Processing and Processing→Completed; nothing follows Completed |
| `ReportJobs.DefaultJob` | ReportGeneratorBackend/Models/ReportJob.cs:8-13 | a record left at its defaults has the empty `ReportType`, the zero id and status `Pending`, the enum's zero value |
| `ReportJobs.WithStatus` | ReportGeneratorBackend/Models/ReportJob.cs:12 | the `Status` setter sets the status and leaves `Id`, `ReportType`, `StartDate`, `EndDate` and `CreatedAt` unchanged |
| `ReportJobs.SetterAllowsRegression` | ReportGeneratorBackend/Models/ReportJob.cs:12 | the setter lets a `Completed` job go back to `Pending`, so forward-only progress belongs to the callers, not to the type |
| `Store.Database.constructor` | ReportGeneratorBackend/BackgroundService/ReportProcessorService.cs:44-45 | a table starts with the given rows, whose identifiers are unique |
| `Store.Database.AddAndSave` | ReportGeneratorBackend/Program.cs:93-94 | adding and saving appends exactly the new row, or changes nothing when the save throws; identifiers stay unique |
| `Store.Database.SaveRow` | ReportGeneratorBackend/BackgroundService/ReportProcessorService.cs:58-59 | saving a modified row overwrites exactly that row, or changes nothing when the save throws |
| `Store.Hub.constructor` | ReportGeneratorBackend/BackgroundService/ReportProcessorService.cs:22-28 | the hub starts with no broadcasts |
| `Store.Hub.SendToAll` | ReportGeneratorBackend/BackgroundService/ReportProcessorService.cs:60 | a send appends exactly that snapshot to the broadcast log, or nothing when it throws |
| `Processor.OldestPending` | ReportGeneratorBackend/BackgroundService/ReportProcessorService.cs:48-51 | returns none exactly when no job is `Pending`; otherwise it returns a `Pending` job, and no `Pending` job has a strictly earlier `CreatedAt` |
| `Processor.Iterate` | ReportGeneratorBackend/BackgroundService/ReportProcessorService.cs:41-82 | one iteration keeps the number of rows; its behaviour is given by the four lemmas below |
| `Processor.IterateFrame` | ReportGeneratorBackend/BackgroundService/ReportProcessorService.cs:58-66 | an iteration changes only `Status`, and only forward. It changes only the oldest pending job. Jobs in `Processing` or `Completed` are never selected again |
| `Processor.IterateOutcome` | ReportGeneratorBackend/BackgroundService/ReportProcessorService.cs:48-82 | the outcome is `Processed` (with the claimed job's id) exactly when nothing throws and a job is pending. It is `Idle` exactly when the query succeeds and finds nothing. Otherwise it is `Failed` at the step that threw |
| `Processor.IterateWithoutClaim` | ReportGeneratorBackend/BackgroundService/ReportProcessorService.cs:53-76 | with no pending job, a failed query or a failed `Processing` save, the store is unchanged and nothing is broadcast |
| `Processor.IterateClaim` | ReportGeneratorBackend/BackgroundService/ReportProcessorService.cs:58-82 | the claimed job ends `Completed`, or stays `Processing` with no rollback when the first send, the work or the second save throws. The broadcasts are its `Processing` then its `Completed` snapshot, cut at the failure. No broadcast precedes the save of its status. Each broadcast is one forward step from the status before it, so `Pending` never goes straight to `Completed` |
| `Processor.Run` | ReportGeneratorBackend/BackgroundService/ReportProcessorService.cs:39-83 | a run has one outcome per scheduled iteration, whatever earlier iterations did, and keeps the number of rows |
| `Processor.RunIteration` | ReportGeneratorBackend/BackgroundService/ReportProcessorService.cs:41-82 | the imperative loop body leaves the table, the broadcast log and the outcome exactly as `Iterate` says, and keeps identifiers unique |
| `Processor.ExecuteAsync` | ReportGeneratorBackend/BackgroundService/ReportProcessorService.cs:35-84 | the loop leaves the table, the broadcast log and the outcomes exactly as `Run` says for its schedule |
| `Processor.RunOnlyAdvancesStatus` | ReportGeneratorBackend/BackgroundService/ReportProcessorService.cs:49-66 | over any run, each job keeps every field but `Status`; its status never regresses, and a job in `Processing` or `Completed` is untouched, so a stranded job stays in `Processing` |
| `Processor.FailureFreeRunStrandsNothing` | ReportGeneratorBackend/BackgroundService/ReportProcessorService.cs:49-68 | a failure-free run that starts with no job in `Processing` ends with none, and no iteration fails |
| `Processor.RunWithoutStrandingKeepsNoneProcessing` | ReportGeneratorBackend/BackgroundService/ReportProcessorService.cs:58-82 | a run with no failure between a `Processing` save and the `Completed` save ends with no job in `Processing` if it started with none. Failed queries, failed first saves and failed second broadcasts strand nothing |
| `Processor.StrandingIterationAddsOne` | ReportGeneratorBackend/BackgroundService/ReportProcessorService.cs:58-82 | an iteration that throws after the `Processing` save and before the `Completed` save moves one job from `Pending` to `Processing` |
| `Processor.StrandedJobsAccumulate` | ReportGeneratorBackend/BackgroundService/ReportProcessorService.cs:39-82 | while pending jobs remain, n such failing iterations leave n more jobs stuck in `Processing` |
| `Processor.ConsecutiveClaimsInCreationOrder` | ReportGeneratorBackend/BackgroundService/ReportProcessorService.cs:48-59 | the next iteration claims a job created no earlier than the previous claim. It claims a different job, unless the previous `Processing` save failed |
| `Processor.QueryFailureRecovers` | ReportGeneratorBackend/BackgroundService/ReportProcessorService.cs:39-82 | after a failed query the loop goes on, and the next iteration processes the oldest pending job |
| `Processor.TwoJobsServedInOrder` | ReportGeneratorBackend/BackgroundService/ReportProcessorService.cs:48-68 | with two pending jobs, the older one is completed before the newer is claimed. The four broadcasts come in that order |
| `Endpoints.NewJob` | ReportGeneratorBackend/Program.cs:82-90 | a created job is `Pending`, carries the fresh id and the current time, and copies type and dates unchanged. It imposes no relation between `StartDate` and `EndDate` |
| `Endpoints.DefaultDto` | ReportGeneratorBackend/DTOs/CreateReportDto.cs:8-10 | a request body left at its defaults has the empty string as `ReportType` |
| `Endpoints.DefaultDtoIsRejected` | ReportGeneratorBackend/Program.cs:76-79 | a request whose `ReportType` keeps its default gets `BadRequest` with the fixed message, and nothing is stored or sent |
| `Endpoints.Create` | ReportGeneratorBackend/Program.cs:73-104 | `BadRequest` exactly for a null or empty type, with nothing stored or sent. `Created` exactly when type, save and send all succeed; the record is then the one stored and broadcast, under the fresh id. At most one record is stored: exactly when the type is valid and the save succeeds, and it is `NewJob`. Only a stored record is broadcast. `Problem` exactly when the type is valid and the save or the send throws; it is a 500 without broadcast, and the record stays stored when only the send threw |
| `Endpoints.CreateReport` | ReportGeneratorBackend/Program.cs:71-105 | the handler appends to the table exactly what `Create` stores, appends to the broadcast log exactly what it sends, returns its result, and keeps identifiers unique |
| `Endpoints.OrderByCreatedDescending` | ReportGeneratorBackend/Program.cs:115-117 | the result is a permutation of the input, ordered by `CreatedAt` non-increasing |
| `Endpoints.GetReports` | ReportGeneratorBackend/Program.cs:111-125 | on success it returns every stored job exactly once, newest first; a failed query gives 500. The store is only read |
| `Pipeline.CreatedJobJoinsQueueLast` | ReportGeneratorBackend/Program.cs:82-94 | a job created strictly later than every stored job joins the queue behind the pending jobs already there. The next claim is unchanged if any job was pending, and is the new job if none was |

## Left out

- `FailWork`: the simulated work (`Task.Delay`) throws only on cancellation, and the catch's own delay then rethrows and ends the loop. An iteration that fails at the work step and is followed by more iterations therefore stands for a real report-generation call made at that step. The run lemmas hold for every schedule, so they also hold for the schedules the current code can produce.
- `Pipeline.CreatedJobJoinsQueueLast`: assumes the new job's time is strictly later than every stored job's. On a tie with the oldest pending job, the database query may return either job.
- Cancellation and timing: the `CancellationToken`, the three 5-second `Task.Delay` waits and the outer loop's cancellation check. The end of the failure schedule given to `ExecuteAsync` stands for cancellation. Each iteration is atomic apart from its injected failure point.
- `Processor.OldestPending`: among `Pending` jobs with equal `CreatedAt`, the earliest row wins. The database query leaves such ties unspecified, so the model fixes one of the allowed choices.
- `Endpoints.OrderByCreatedDescending`: the order among jobs with equal `CreatedAt` is not stated. The database query does not promise one.
- The SignalR transport and the hub class. A broadcast is an append to the `Hub` log. A broadcast that throws appends nothing, and delivery to clients is not modelled.
- Entity Framework and SQL Server. The table is an in-memory sequence of rows with unique identifiers. A save is atomic: it either happens entirely or not at all.
- `Guid.NewGuid()` and `DateTime.UtcNow` are the parameters `id` and `now`. Freshness of `id` is a precondition.
- The message inside `Results.Problem(ex.Message, 500)` and the location string of `Results.Created`. The model keeps the status code and the created record.
- Service registration, Swagger, CORS, HTTPS redirection, hub mapping and `app.Run`.
- Logging, dependency-injection scopes, and concurrency between the request handlers and the background loop.
