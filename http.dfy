/** HTTP answers of the API: a status code with either a payload or an error message. */
module Http {
  import opened Common
  import opened AuthMiddleware

  datatype Response<T> = Response(status: int, body: Result<T, string>)

  const UNEXPECTED: string := "An unexpected error occurred"

  function Refuse<T>(status: int, error: string): Response<T> {
    Response(status, Err(error))
  }

  /** The answer `requireUser` sends when it does not call `next()`. */
  function Denied<T>(g: Gate): Response<T>
    requires g.Deny?
  {
    Refuse(g.status, g.error)
  }
}
