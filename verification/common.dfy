/** Shapes shared by every route handler: an optional value, the JSON reply
    a handler sends, and the error messages several handlers share. */
module Common {

  datatype Option<+T> = None | Some(value: T)

  /** A route handler's reply: a JSON body with status 200, or a
      `{ message }` body with an error status. */
  datatype Response<+T> = Ok(body: T) | Fail(status: int, message: string)

  const MissingFields := "Missing required fields"
  const InternalError := "Internal server error"
}
