/** The activity adapter: one call of the service, compared with the request. */
module Activity {
  import opened Wrappers
  import opened Models

  /** The exception a service call raises (an `HttpRequestException`, say). */
  datatype ServiceError = ServiceError(message: string)

  /** How one awaited call of the service's `GetData` ends. */
  datatype ServiceCall = Answered(value: NullableString) | Threw(error: ServiceError)

  /** How one run of the activity ends: a result, or the service's exception
      escaping unchanged to the engine. */
  datatype ActivityRun = Completed(result: ActivityResult) | Raised(error: ServiceError)

  /** `ActivitiesClass.ResultFromActivity`: the service's string is kept when it
      equals the request's data (ordinal equality, null equal only to null);
      a mismatch yields an empty result, not an error; a service exception
      is not caught. */
  function ResultFromActivity(request: Request, service: ServiceCall): (r: ActivityRun)
    ensures r.Raised? <==> service.Threw?
    ensures service.Threw? ==> r.error == service.error
    ensures service.Answered? && service.value == request.Data ==>
              r.Completed? && r.result.Data == service.value
    ensures service.Answered? && service.value != request.Data ==>
              r.Completed? && r.result.Data == None && !r.result.IsValid()
    ensures r.Completed? ==> r.result.Data == None || r.result.Data == request.Data
    ensures r.Completed? && r.result.IsValid() ==>
              r.result.Data == request.Data && !IsNullOrEmpty(request.Data)
  {
    match service
    case Threw(e) => Raised(e)
    case Answered(data) =>
      if data == request.Data then Completed(ActivityResult(data)) else Completed(NewActivityResult())
  }

  /** Exactly the data the adapter can hand back for a request, over every
      answer of the service: null, or the request's own data. */
  lemma ReachableActivityData(request: Request, data: NullableString)
    ensures (exists service :: ResultFromActivity(request, service) == Completed(ActivityResult(data))) <==>
            data == None || data == request.Data
  {
    if data == None {
      assert ResultFromActivity(request, Answered(None)) == Completed(ActivityResult(data));
    } else if data == request.Data {
      assert ResultFromActivity(request, Answered(data)) == Completed(ActivityResult(data));
    }
  }
}
