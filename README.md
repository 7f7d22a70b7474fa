# A verified model of a single-activity Temporal workflow

The repository is a small C# program built on the Temporal SDK. A workflow,
`WorkflowClass.CreateResult`, asks the durable engine to run one activity,
`ActivitiesClass.ResultFromActivity`, under a retry policy. The activity calls a
service and checks that the service's string equals the request's data. The
workflow then maps how the activity ended onto a fresh `Result` object. That
object holds either data or error messages.

The model has five modules:

- `Wrappers` (`wrappers.dfy`): `Option`, standing for a C# reference that may be null.
- `Models` (`models.dfy`): `Request`, the immutable `ActivityResult`, and the
  mutable `Result` class, together with `ResultValue`, the value of a `Result`'s state.
- `Activity` (`activity.dfy`): the adapter, a pure function of the request and
  of how the one service call ended (`ServiceCall`: an answer, which may be
  null, or a thrown `ServiceError`).
- `Workflow` (`workflow.dfy`):
  - the retry policy and its default;
  - the activity options;
  - the error-message format;
  - the specification `ExpectedRun`, a total map from the engine's outcome to
    how the workflow ends;
  - the imperative `CreateResult`, proved to agree with that specification.
- `Tests` (`tests.dfy`): the repository's two test cases, restated as client
  methods of `CreateResult`.

The engine enters only as a parameter. `CreateResult` receives `execute`, a
function from the request and the `ActivityOptions` it builds to an
`ActivityOutcome`. An `ActivityOutcome` is one of three things:

- `Succeeded(ActivityResult)`;
- `ActivityFailure(message)`, the engine's `ActivityFailureException`;
- `OtherFailure`.

A null C# string is `None`. C#'s string `==` becomes `Option` equality, so null
equals only null.

`program.cs` repeats the four core components at lines 128-214. The model is
written once. Each row below except the two `Tests` rows cites the `Models/`,
`Activity/` or `Workflow/` copy and names the matching `program.cs` lines in
its last column. The copies
differ in a few declarations and qualified names (a non-`readonly` service
field, a `RetryPolicy?` annotation, shorter `Workflow.` and `Utils.` prefixes).
The only behavioural difference is that `ActivityResult.Data` is
`{ get; set; }` in `program.cs:213` rather than init-only. Nothing assigns it
after construction, so the same immutable datatype models both copies.

Three details of the code matter to the model:

- A mismatching activity result has a null `Data`, not an empty string
  (`Activity/ActivitiesClass.cs:23`).
- `ActivityResult.IsValid` is `!string.IsNullOrEmpty(Data)`, so both null and
  `""` are invalid.
- When the request's data is null and the service answers null, the adapter
  takes the "match" branch. The result it builds still has null data.

The guard `activityResult is null or { IsValid: false }` at
`Workflow/WorkflowClass.cs:41` always holds. The exception leaves the `await`
before `activityResult` is assigned, so `activityResult` is still null when the
catch runs. `CreateResult` asserts `IsNullOrInvalid(activityResult)` in its
failure branch. That assertion shows the failure branch always takes the early
return and never reaches line 49.

## Model

| member | source | states |
|---|---|---|
| `Models.ActivityResult.IsValid` | Models/ActivityResult.cs:5 | valid exactly when `Data` is non-null and has length > 0 (same at program.cs:212) |
| `Models.NewActivityResult` | Models/ActivityResult.cs:5-6 | a default-constructed `ActivityResult` has null `Data` and is not valid (program.cs:210-214) |
| `Models.Result.constructor` | Models/Result.cs:7-10 | a fresh `Result` has no data, an empty error list, and is valid (program.cs:200-205) |
| `Models.Result.IsValid` | Models/Result.cs:7 | in every state, valid exactly when the error list is empty (program.cs:202) |
| `Models.Result.AddErrorMessage` | Models/Result.cs:12 | the error list becomes the old list followed by the new message, `Data` is unchanged, and the result is no longer valid (program.cs:207) |
| `Models.Result.SetData` | Models/Result.cs:10 | the `Data` setter: `Data` takes the new value, the error list and validity are unchanged (program.cs:205) |
| `Activity.ResultFromActivity` | Activity/ActivitiesClass.cs:17-24 | on an exactly equal answer the result carries that answer; otherwise null `Data`, invalid, and no error; a service exception passes through unchanged; the data is always null or the request's; a valid result carries the request's non-empty data (program.cs:138-145) |
| `Workflow.EffectiveRetryPolicy` | Workflow/WorkflowClass.cs:17-24 | the supplied policy when there is one, otherwise 1 s initial, 100 s maximum, coefficient 2, one attempt, no non-retryable types (program.cs:154-161, 173) |
| `Workflow.ActivityOptionsFor` | Workflow/WorkflowClass.cs:34-37 | the start-to-close timeout is 300 seconds whatever the policy, and the retry policy is the effective one (program.cs:171-174) |
| `Activity.ReachableActivityData` | Activity/ActivitiesClass.cs:21-23 | over every answer of the service, the data the adapter can return is exactly null or the request's own data, and both occur (program.cs:142-144) |
| `Workflow.ErrorMessage` | Workflow/WorkflowClass.cs:43 | the recorded error is `"Activity failed: "` followed by the engine message, with nothing added or dropped (program.cs:180) |
| `Workflow.FailureMessageRoundTrip` | Workflow/WorkflowClass.cs:43 | the engine message can be read back from the recorded `"Activity failed: " + message` (program.cs:180) |
| `Workflow.ExpectedRun` | Workflow/WorkflowClass.cs:26-51 | a success copies the activity's `Data` with no error, even an invalid one; an activity failure gives null data and exactly `["Activity failed: " + m]`; any other failure escapes; a returned result has at most one error, never data and errors together, and is valid exactly on success (program.cs:163-188) |
| `Workflow.IsNullOrInvalid` | Workflow/WorkflowClass.cs:41 | the guard fails exactly when there is an activity result with non-null, non-empty data; `CreateResult` asserts that it holds in its failure branch, where no activity result has been assigned (program.cs:178) |
| `Workflow.ReturnableResults` | Workflow/WorkflowClass.cs:26-51 | over every engine outcome, the workflow can return exactly the results with no error and any data, or with null data and one error in the `"Activity failed: "` format (program.cs:163-188) |
| `Workflow.CreateResult` | Workflow/WorkflowClass.cs:15-52 | builds a new `Result` whose state is `ExpectedRun` of the engine's outcome under `ActivityOptionsFor(retryPolicy)`, or lets a non-activity failure escape with no `Result` (program.cs:152-189) |
| `Workflow.MatchReturnsRequestData` | Workflow/WorkflowClass.cs:49 | when the service answers exactly the request's data, the workflow returns that data with no error (Activity/ActivitiesClass.cs:21-22; program.cs:142-144, 186) |
| `Workflow.MismatchReturnsEmptyValidResult` | Workflow/WorkflowClass.cs:49 | on a mismatch the workflow returns null data, no error, and a valid result (Activity/ActivitiesClass.cs:23; program.cs:142-144, 186) |
| `Workflow.ServiceFailureRecordsOneError` | Workflow/WorkflowClass.cs:39-45 | a thrown service call ends with one error built from the engine's message, null data, and an invalid result (program.cs:176-183) |
| `Workflow.ReturnedDataComesFromRequest` | Workflow/WorkflowClass.cs:49 | whatever the service does, the returned data is null or the request's, and it is the request's non-null data exactly when the service answered with it (program.cs:186) |
| `Tests.HappyPath` | Tests.cs:35-76 | request and answer "Good Data" give the data "Good Data" (the test asserts only that it is non-null), no errors, and a valid result |
| `Tests.WithError` | Tests.cs:80-122 | a throwing service gives null data, exactly one error, "Activity failed: Activity task failed", and an invalid result (the test itself checks only that the list is non-empty and its first entry) |

## Left out

- The Temporal engine is not modelled. That covers scheduling, retry execution, backoff timing, timeout enforcement, persistence and replay, workers and task queues. `CreateResult` takes the engine as the function `execute`. The message of an `ActivityFailureException` is an input, because the engine produces it, not the service.
- Workflow.SingleAttempt: this is a stand-in for the engine, used only by the end-to-end lemmas and the tests. It runs the activity once and ignores the policy, so it does not model how the engine retries under a larger `MaximumAttempts`.
- Retry-policy arithmetic is not modelled. Intervals are whole seconds rather than `TimeSpan` ticks. `BackoffCoefficient` is a real rather than a floating-point number, and only its value 2 is stated.
- `Utils.PrintResult` (`Utils/Utils.cs:7-28`, `program.cs:221-245`) and its calls at `Workflow/WorkflowClass.cs:44,50` are left out. They are console output.
- `IService`, `HttpRequestException` and async/await are left out. One awaited service call is the value `ServiceCall`, and the model is sequential.
- The program entry point, the worker and mock wiring in `Tests.cs` and `program.cs:17-124` are left out. Only the two tests' assertions are restated, in `Tests`.
- `Result.Errors` is exposed as a mutable `List<string>`, so any C# caller could add or clear entries directly. The model's `Result` changes only through `AddErrorMessage` and `SetData`.
- A null `Request` is not modelled. In C# that would raise a `NullReferenceException` inside the activity.
- A null `ActivityResult` returned by the engine on success is not modelled. `Succeeded` always carries a value, and C# would fail at `Workflow/WorkflowClass.cs:49` on a null one.
- The public setter of `Request.Data` (`program.cs:197`) is not modelled. `Request` is an immutable value because nothing in the core assigns it.
