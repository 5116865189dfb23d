/** Shared result shapes of the route handlers and the JavaScript notion of a
    "truthy" request field. */
module Common {

  datatype Option<T> = None | Some(value: T)

  /** An HTTP error reply: its status code and the `message` of its JSON body. */
  datatype Refusal = Refusal(status: nat, message: string)

  /** What a handler sends back: a success status with its body, or a refusal. */
  datatype Reply<T> = Success(status: nat, body: T) | Failure(why: Refusal)

  /** The outcome of a pure check that either selects a value or refuses. */
  datatype Outcome<T> = Accepted(value: T) | Refused(why: Refusal)

  /** A request-body field is truthy in JavaScript when it is present and not
      the empty string; `if (!field)` treats both other cases alike. */
  predicate Given(field: Option<string>)
    ensures Given(field) <==> field != None && field != Some("")
  {
    field.Some? && field.value != ""
  }
}
