/** The workflow `CreateResult`: resolve the retry policy, let the engine run
    the activity once per allowed attempt, and map how that ended onto a
    fresh `Result`. The durable engine itself is a parameter. */
module Workflow {
  import opened Wrappers
  import opened Models
  import opened Activity

  /** A `TimeSpan`, in whole seconds. */
  datatype Duration = Duration(seconds: nat)

  /** `TimeSpan.FromSeconds`. */
  function FromSeconds(s: nat): (d: Duration)
  {
    Duration(s)
  }

  /** `TimeSpan.FromMinutes`. */
  function FromMinutes(m: nat): (d: Duration)
  {
    Duration(60 * m)
  }

  /** The engine's retry configuration, as an opaque record; the backoff
      coefficient is floating-point in C#, here a real. */
  datatype RetryPolicy = RetryPolicy(
    InitialInterval: Duration,
    MaximumInterval: Duration,
    BackoffCoefficient: real,
    MaximumAttempts: int,
    NonRetryableErrorTypes: Option<seq<string>>)

  /** What the workflow hands the engine with the activity. */
  datatype ActivityOptions = ActivityOptions(StartToCloseTimeout: Duration, Retry: RetryPolicy)

  /** The policy used when the caller supplies none: 1 s initial interval,
      100 s maximum interval, coefficient 2, a single attempt and no
      non-retryable error types. */
  const DefaultRetryPolicy: RetryPolicy :=
    RetryPolicy(FromSeconds(1), FromSeconds(100), 2.0, 1, None)

  /** The per-attempt start-to-close timeout: five minutes. */
  const ActivityTimeout: Duration := FromMinutes(5)

  /** `retryPolicy ?? defaultRetryPolicy`. */
  function EffectiveRetryPolicy(retryPolicy: Option<RetryPolicy>): (p: RetryPolicy)
    ensures retryPolicy.Some? ==> p == retryPolicy.value
    ensures retryPolicy.None? ==>
              p.InitialInterval.seconds == 1 && p.MaximumInterval.seconds == 100 &&
              p.BackoffCoefficient == 2.0 && p.MaximumAttempts == 1 &&
              p.NonRetryableErrorTypes == None
  {
    match retryPolicy
    case Some(supplied) => supplied
    case None => DefaultRetryPolicy
  }

  /** The options passed with the activity: whatever the policy, each attempt
      may take at most 300 seconds. */
  function ActivityOptionsFor(retryPolicy: Option<RetryPolicy>): (o: ActivityOptions)
    ensures o.StartToCloseTimeout.seconds == 300
    ensures o.Retry == EffectiveRetryPolicy(retryPolicy)
  {
    ActivityOptions(ActivityTimeout, EffectiveRetryPolicy(retryPolicy))
  }

  /** A failure of the workflow's own execution that is not an
      `ActivityFailureException`. */
  datatype WorkflowFailure = WorkflowFailure(description: string)

  /** How the engine's `ExecuteActivityAsync` ends: with the activity's
      result, with an `ActivityFailureException` carrying the engine's
      message once the policy's attempts are used up, or with another failure. */
  datatype ActivityOutcome =
    | Succeeded(result: ActivityResult)
    | ActivityFailure(message: string)
    | OtherFailure(failure: WorkflowFailure)

  /** A stand-in engine for the end-to-end lemmas and the tests: it runs the
      activity once, whatever the policy says, and turns a service exception
      into an `ActivityFailureException` carrying the engine's own message,
      not the service's. */
  function SingleAttempt(run: ActivityRun, engineMessage: string): (o: ActivityOutcome)
  {
    match run
    case Completed(r) => Succeeded(r)
    case Raised(_) => ActivityFailure(engineMessage)
  }

  const ErrorPrefix: string := "Activity failed: "

  /** The message recorded for an activity failure: `$"Activity failed: {message}"`. */
  function ErrorMessage(message: string): (e: string)
    ensures |e| == |ErrorPrefix| + |message|
    ensures e[..|ErrorPrefix|] == ErrorPrefix && e[|ErrorPrefix|..] == message
  {
    ErrorPrefix + message
  }

  /** The engine message that a recorded error was built from, if it has the format. */
  function FailureMessageOf(error: string): (m: Option<string>)
  {
    if |ErrorPrefix| <= |error| && error[..|ErrorPrefix|] == ErrorPrefix
    then Some(error[|ErrorPrefix|..])
    else None
  }

  /** Every recorded error carries its engine message recoverably. */
  lemma FailureMessageRoundTrip(message: string)
    ensures FailureMessageOf(ErrorMessage(message)) == Some(message)
  {
  }

  /** The invariant of every `Result` the workflow returns: at most one error,
      and data and errors never together. */
  predicate WellFormed(v: ResultValue)
  {
    |v.Errors| <= 1 && (v.Errors != [] ==> v.Data == None)
  }

  /** How a run of the workflow ends, as a value: it returns a `Result` in
      that state, or a failure escapes it. */
  datatype RunOutcome = Returns(value: ResultValue) | Throws(failure: WorkflowFailure)

  /** The guard `activityResult is null or { IsValid: false }`. */
  predicate IsNullOrInvalid(activityResult: Option<ActivityResult>)
    ensures !IsNullOrInvalid(activityResult) <==>
              activityResult.Some? && activityResult.value.Data.Some? &&
              |activityResult.value.Data.value| > 0
  {
    match activityResult
    case None => true
    case Some(r) => !r.IsValid()
  }

  /** What `CreateResult` does with each way the activity can end. */
  function ExpectedRun(outcome: ActivityOutcome): (r: RunOutcome)
    ensures r.Returns? ==> WellFormed(r.value)
    ensures r.Returns? ==> (r.value.IsValid() <==> outcome.Succeeded?)
    ensures outcome.Succeeded? ==> r == Returns(ResultValue(outcome.result.Data, []))
    ensures outcome.ActivityFailure? ==>
              r == Returns(ResultValue(None, [ErrorMessage(outcome.message)])) &&
              FailureMessageOf(r.value.Errors[0]) == Some(outcome.message)
    ensures r.Throws? <==> outcome.OtherFailure?
    ensures outcome.OtherFailure? ==> r.failure == outcome.failure
  {
    match outcome
    case Succeeded(result) => Returns(ResultValue(result.Data, []))
    case ActivityFailure(message) =>
      FailureMessageRoundTrip(message);
      Returns(ResultValue(None, [ErrorMessage(message)]))
    case OtherFailure(failure) => Throws(failure)
  }

  /** How `CreateResult` ends: with the `Result` object it built, or with
      the failure that escaped it. */
  datatype Exit = Returned(result: Result) | Faulted(failure: WorkflowFailure)

  /** `WorkflowClass.CreateResult`. `execute` stands for the engine's
      `ExecuteActivityAsync` applied to the activity on `request`. */
  method CreateResult(request: Request, retryPolicy: Option<RetryPolicy>,
                      execute: (Request, ActivityOptions) -> ActivityOutcome)
    returns (exit: Exit)
    ensures match ExpectedRun(execute(request, ActivityOptionsFor(retryPolicy)))
            case Returns(v) => exit.Returned? && fresh(exit.result) && exit.result.Value() == v
            case Throws(f) => exit == Faulted(f)
  {
    var result := new Result();
    var activityResult: Option<ActivityResult> := None;
    match execute(request, ActivityOptionsFor(retryPolicy)) {
      case OtherFailure(failure) =>
        return Faulted(failure);
      case ActivityFailure(message) =>
        // the exception left before the assignment, so the guard always holds
        assert IsNullOrInvalid(activityResult);
        if IsNullOrInvalid(activityResult) {
          result.AddErrorMessage(ErrorMessage(message));
          return Returned(result);
        }
      case Succeeded(r) =>
        activityResult := Some(r);
    }
    result.SetData(activityResult.value.Data);
    return Returned(result);
  }

  // End to end: the adapter's run, finished by a single-attempt engine, through the workflow.

  /** The service answers exactly the request's data: the workflow returns that
      data and no error. */
  lemma MatchReturnsRequestData(request: Request, engineMessage: string)
    ensures ExpectedRun(SingleAttempt(ResultFromActivity(request, Answered(request.Data)), engineMessage))
            == Returns(ResultValue(request.Data, []))
  {
  }

  /** The service answers something else: no error is recorded, the data is
      null, and the returned result still counts as valid. */
  lemma MismatchReturnsEmptyValidResult(request: Request, answer: NullableString, engineMessage: string)
    requires answer != request.Data
    ensures var r := ExpectedRun(SingleAttempt(ResultFromActivity(request, Answered(answer)), engineMessage));
            r == Returns(ResultValue(None, [])) && r.value.IsValid()
  {
  }

  /** The service throws: exactly one error, built from the engine's message
      rather than the service's, and no data. */
  lemma ServiceFailureRecordsOneError(request: Request, error: ServiceError, engineMessage: string)
    ensures var r := ExpectedRun(SingleAttempt(ResultFromActivity(request, Threw(error)), engineMessage));
            r == Returns(ResultValue(None, [ErrorMessage(engineMessage)])) && !r.value.IsValid()
  {
  }

  /** Whatever the service does, the returned data is null or the request's
      data, and it is the request's (non-null) data exactly when the service
      answered with it. */
  lemma ReturnedDataComesFromRequest(request: Request, service: ServiceCall, engineMessage: string)
    ensures var r := ExpectedRun(SingleAttempt(ResultFromActivity(request, service), engineMessage));
            r.Returns? &&
            (r.value.Data == None || r.value.Data == request.Data) &&
            (r.value.Data.Some? <==> request.Data.Some? && service == Answered(request.Data))
  {
  }

  /** Exactly the results the workflow can return, over every way the
      activity can end: no error and any data, or null data and one error in
      the recorded format. */
  lemma ReturnableResults(v: ResultValue)
    ensures (exists outcome :: ExpectedRun(outcome) == Returns(v)) <==>
            v.Errors == [] ||
            (v.Data == None && |v.Errors| == 1 && FailureMessageOf(v.Errors[0]).Some?)
  {
    if v.Errors == [] {
      assert ExpectedRun(Succeeded(ActivityResult(v.Data))) == Returns(v);
    } else if v.Data == None && |v.Errors| == 1 && FailureMessageOf(v.Errors[0]).Some? {
      var message := FailureMessageOf(v.Errors[0]).value;
      assert ErrorMessage(message) == v.Errors[0];
      assert [v.Errors[0]] == v.Errors;
      assert ExpectedRun(ActivityFailure(message)) == Returns(v);
    }
  }
}
