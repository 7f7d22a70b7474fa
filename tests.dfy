/** The two test cases of the repository, checked against the
    workflow's contract with a single-attempt engine standing in for the real one. */
module Tests {
  import opened Wrappers
  import opened Models
  import opened Activity
  import opened Workflow

  /** The policy both tests pass in. */
  const TestRetryPolicy: RetryPolicy :=
    RetryPolicy(FromSeconds(1), FromSeconds(100), 2.0, 1, None)

  /** The message the engine gives its `ActivityFailureException`. */
  const EngineFailureMessage: string := "Activity task failed"

  /** The service answers "Good Data" to a request for "Good Data". */
  method HappyPath() returns (exit: Exit)
    ensures exit.Returned?
    ensures exit.result.Data == Some("Good Data") && exit.result.Errors == [] && exit.result.IsValid()
  {
    var service := Answered(Some("Good Data"));
    exit := CreateResult(Request(Some("Good Data")), Some(TestRetryPolicy),
                         (request, options) => SingleAttempt(ResultFromActivity(request, service), EngineFailureMessage));
  }

  /** The service throws "There was an error" for a request of "Bad Data". */
  method WithError() returns (exit: Exit)
    ensures exit.Returned?
    ensures exit.result.Data == None
    ensures |exit.result.Errors| == 1 && exit.result.Errors[0] == "Activity failed: Activity task failed"
    ensures !exit.result.IsValid()
  {
    var service := Threw(ServiceError("There was an error"));
    exit := CreateResult(Request(Some("Bad Data")), Some(TestRetryPolicy),
                         (request, options) => SingleAttempt(ResultFromActivity(request, service), EngineFailureMessage));
  }
}
