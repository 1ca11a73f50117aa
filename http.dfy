/** What an Express handler does with a request: send a status and a JSON
    body, or hand the error to `next` unchanged. */
module Http {
  import opened Wrappers

  /** `res.status(status).json(body)`, or `next(error)`. */
  datatype Reply<T> = Json(status: nat, body: T) | Next(error: string)

  /** `{ success, message?, data? }`, the body most handlers send. */
  datatype Envelope<T> = Envelope(success: bool, message: Option<string>, data: Option<T>)

  const OkStatus := 200
  const CreatedStatus := 201
  const BadRequestStatus := 400
  const UnauthorizedStatus := 401
  const NotFoundStatus := 404

  /** `res.status(status).json({ success: false, message })`. */
  function Failure<T>(status: nat, message: string): Reply<Envelope<T>> {
    Json(status, Envelope(false, Some(message), None))
  }

  /** `res.status(status).json({ success: true, message?, data? })`. */
  function Success<T>(status: nat, message: Option<string>, data: Option<T>): Reply<Envelope<T>> {
    Json(status, Envelope(true, message, data))
  }
}
