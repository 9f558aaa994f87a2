/** The replies the controllers send: a JSON value with its status code, or an error message. */
module Http {
  datatype Reply<T> =
    | Json(status: int, value: T)
    | ErrorJson(status: int, message: string)

  const InternalError: string := "Internal server error"
}
