/** The data model: the workflow's input, the activity's output and the
    mutable result that the workflow hands back to its caller. */
module Models {
  import opened Wrappers

  /** A C# `string`, which may be null. */
  type NullableString = Option<string>

  /** `string.IsNullOrEmpty`. */
  predicate IsNullOrEmpty(s: NullableString): (b: bool)
  {
    s.None? || s.value == ""
  }

  /** The workflow's input; only its `Data` is read. */
  datatype Request = Request(Data: NullableString)

  /** What one run of the activity produces. `Data` is init-only, so a value
      never changes once built and is modelled as an immutable datatype. */
  datatype ActivityResult = ActivityResult(Data: NullableString) {

    /** Valid exactly when the data is present and not the empty string. */
    predicate IsValid()
      ensures IsValid() <==> Data.Some? && |Data.value| > 0
    {
      !IsNullOrEmpty(Data)
    }
  }

  /** `new ActivityResult()`: `Data` is left unset (null). */
  function NewActivityResult(): (r: ActivityResult)
    ensures r.Data == None
    ensures !r.IsValid()
  {
    ActivityResult(None)
  }

  /** The observable state of a `Result` object at one moment. */
  datatype ResultValue = ResultValue(Data: NullableString, Errors: seq<string>) {

    predicate IsValid()
    {
      |Errors| == 0
    }
  }

  /** The accumulator the workflow returns: a settable `Data` and a list of
      error messages that only grows, at its end. */
  class Result {
    var Data: NullableString
    var Errors: seq<string>

    /** `new Result()`: no data and an empty error list. */
    constructor ()
      ensures Data == None && Errors == []
      ensures IsValid()
    {
      Data := None;
      Errors := [];
    }

    /** The object's current state as a value. */
    function Value(): ResultValue
      reads this
    {
      ResultValue(Data, Errors)
    }

    /** Derived from the error list, in every state. */
    predicate IsValid()
      reads this
      ensures IsValid() <==> |Errors| == 0
    {
      Value().IsValid()
    }

    /** Appends one message; earlier messages keep their order, `Data` is untouched. */
    method AddErrorMessage(error: string)
      modifies this
      ensures Errors == old(Errors) + [error]
      ensures Data == old(Data)
      ensures !IsValid()
    {
      Errors := Errors + [error];
    }

    /** The `Data` setter; the error list, and so validity, are untouched. */
    method SetData(value: NullableString)
      modifies this
      ensures Data == value
      ensures Errors == old(Errors)
      ensures IsValid() == old(IsValid())
    {
      Data := value;
    }
  }
}
