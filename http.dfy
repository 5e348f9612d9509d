/**
 * The HTTP side of the handlers: a decoded request body, the response
 * status and JSON body, and what it means for an error response to report
 * a storage error faithfully.
 */
module Http {
  import opened Models

  const StatusOK := 200
  const StatusCreated := 201
  const StatusBadRequest := 400
  const StatusNotFound := 404
  const StatusConflict := 409
  const StatusInternalServerError := 500

  /** A JSON request body: either it failed to bind (with the binder's message) or it bound to a value. */
  datatype Bound<T> = Malformed(message: string) | Parsed(value: T)

  /** The JSON body of a response; the `...Envelope` forms wrap their payload under one key. */
  datatype Body =
    | ErrorBody(err: ErrorResponse)
    | PrEnvelope(pr: PullRequest)
    | ReassignEnvelope(pr: PullRequest, replacedBy: string)
    | TeamEnvelope(team: Team)
    | TeamBody(team: Team)
    | UserEnvelope(user: User)
    | ReviewBody(review: UserPRsResponse)
    | StatsBody(stats: StatsResponse)

  datatype Response = Response(status: int, body: Body)

  /**
   * `r` reports storage error `e`: either as a client error carrying the
   * API code that shares the sentinel's text, or as an internal error
   * carrying the error's own text.
   */
  predicate Reports(r: Response, e: StoreError)
  {
    && r.body.ErrorBody?
    && var d := r.body.err.error;
    || (r.status == StatusInternalServerError && d.code == InternalError && d.message == ErrorText(e))
    || (400 <= r.status < 500 && SentinelCode(e) == Some(d.code))
  }
}
