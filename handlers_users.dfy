/** The user endpoints. */
module UserHandlers {
  import opened Models
  import opened Http
  import opened TeamHandlers

  /** POST /users/setIsActive: NOT_FOUND is a 404; the user is returned under key `user`. */
  function SetIsActive(body: Bound<SetActiveRequest>, setUserActive: (string, bool) -> Result<User, StoreError>): (r: Response)
    ensures body.Malformed? ==> r == ErrorReply(StatusBadRequest, InvalidRequest, body.message)
    ensures body.Parsed? && setUserActive(body.value.userId, body.value.isActive).Ok? ==>
              r == Response(StatusOK, UserEnvelope(setUserActive(body.value.userId, body.value.isActive).value))
    ensures body.Parsed? && setUserActive(body.value.userId, body.value.isActive) == Err(ErrNotFound) ==>
              r == ErrorReply(StatusNotFound, NotFound, "resource not found")
    ensures body.Parsed? && setUserActive(body.value.userId, body.value.isActive).Err? ==>
              Reports(r, setUserActive(body.value.userId, body.value.isActive).error)
    ensures body.Parsed? && setUserActive(body.value.userId, body.value.isActive).Err?
              && setUserActive(body.value.userId, body.value.isActive).error != ErrNotFound ==>
              r.status == StatusInternalServerError
    ensures r.status < 300 <==> body.Parsed? && setUserActive(body.value.userId, body.value.isActive).Ok?
  {
    match body
    case Malformed(msg) => ErrorReply(StatusBadRequest, InvalidRequest, msg)
    case Parsed(req) =>
      match setUserActive(req.userId, req.isActive)
      case Ok(user) => Response(StatusOK, UserEnvelope(user))
      case Err(ErrNotFound) => ErrorReply(StatusNotFound, NotFound, "resource not found")
      case Err(e) => ErrorReply(StatusInternalServerError, InternalError, ErrorText(e))
  }

  /**
   * GET /users/getReview. An empty id is a 400 and storage is not
   * consulted; NOT_FOUND is a 404; the review list is the 200 body.
   */
  function GetReview(userId: string, getUserPullRequests: string -> Result<UserPRsResponse, StoreError>): (r: Response)
    ensures userId == "" ==> r == ErrorReply(StatusBadRequest, InvalidRequest, "user_id is required")
    ensures userId != "" && getUserPullRequests(userId).Ok? ==>
              r == Response(StatusOK, ReviewBody(getUserPullRequests(userId).value))
    ensures userId != "" && getUserPullRequests(userId) == Err(ErrNotFound) ==>
              r == ErrorReply(StatusNotFound, NotFound, "resource not found")
    ensures userId != "" && getUserPullRequests(userId).Err? ==> Reports(r, getUserPullRequests(userId).error)
    ensures userId != "" && getUserPullRequests(userId).Err? && getUserPullRequests(userId).error != ErrNotFound ==>
              r.status == StatusInternalServerError
    ensures r.status < 300 <==> userId != "" && getUserPullRequests(userId).Ok?
  {
    if userId == "" then
      ErrorReply(StatusBadRequest, InvalidRequest, "user_id is required")
    else
      match getUserPullRequests(userId)
      case Ok(resp) => Response(StatusOK, ReviewBody(resp))
      case Err(ErrNotFound) => ErrorReply(StatusNotFound, NotFound, "resource not found")
      case Err(e) => ErrorReply(StatusInternalServerError, InternalError, ErrorText(e))
  }
}
