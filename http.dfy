/**
 * What a route handler sends back: a status code and a JSON body. Every
 * error path of the backend sends `{message}` only, so a failure is a status
 * and that message; a success carries the route's own body type.
 */
module Http {
  import opened Tables

  datatype Response<T> =
    | Success(status: nat, value: T)
    | Failure(status: nat, message: string)

  /** The body every handler's catch block sends (with the driver's error text beside it). */
  const ServerError: string := "Server error"

  /** The `{message, id}` body of the routes that insert a row. */
  datatype Created = Created(message: string, id: nat)

  /** `value || fallback` on an optional text field: a missing or empty value gives way to the fallback. */
  function OrElse(value: Option<string>, fallback: string): (r: string)
    ensures value == None || value == Some("") ==> r == fallback
    ensures value.Some? && value.value != "" ==> r == value.value
  {
    match value
    case Some(x) => if x != "" then x else fallback
    case None => fallback
  }
}
