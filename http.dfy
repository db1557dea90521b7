/** The errors the HTTP layer turns into error responses (FastAPI's `HTTPException`). */
module Http {

  /**
   * The `detail` of an error response: either text the model knows in full,
   * or a known prefix followed by the message of a library exception
   * (a validation error, a driver error) that the model does not reproduce.
   */
  datatype Detail = Literal(text: string) | PrefixThenLibraryText(prefix: string)

  /** `prefix + str(e)` where `str(e)` is the detail `d`. */
  function Prefixed(prefix: string, d: Detail): Detail {
    match d
    case Literal(text) => Literal(prefix + text)
    case PrefixThenLibraryText(p) => PrefixThenLibraryText(prefix + p)
  }

  datatype HttpError = HttpError(status: int, detail: Detail)

  /** The reply to an exception that no handler catches: Starlette's plain 500. */
  const InternalServerError: HttpError := HttpError(500, Literal("Internal Server Error"))
}
