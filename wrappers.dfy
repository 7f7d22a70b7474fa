/** An optional value. The model uses it wherever the C# code holds a
    reference that may be null (a `string`, an `ActivityResult`, a `RetryPolicy`). */
module Wrappers {

  datatype Option<+T> = None | Some(value: T)
}
