/** The team endpoints and the error-body constructor shared by all handlers. */
module TeamHandlers {
  import opened Models
  import opened Http

  /** The error body with the given code and message. */
  function CreateErrorResponse(code: ErrorCode, message: string): (r: ErrorResponse)
    ensures r.error.code == code && r.error.message == message
  {
    ErrorResponse(ErrorDetail(code, message))
  }

  function ErrorReply(status: int, code: ErrorCode, message: string): Response
  {
    Response(status, ErrorBody(CreateErrorResponse(code, message)))
  }

  /**
   * POST /team/add. A taken name is a 400 (not a 409) with code
   * TEAM_EXISTS; success echoes the submitted team with 201.
   */
  function AddTeam(body: Bound<Team>, createTeam: Team -> Option<StoreError>): (r: Response)
    ensures body.Malformed? ==> r == ErrorReply(StatusBadRequest, InvalidRequest, body.message)
    ensures body.Parsed? && createTeam(body.value).None? ==> r == Response(StatusCreated, TeamEnvelope(body.value))
    ensures body.Parsed? && createTeam(body.value) == Some(ErrTeamExists) ==>
              r == ErrorReply(StatusBadRequest, TeamExists, "team_name already exists")
    ensures body.Parsed? && createTeam(body.value).Some? ==> Reports(r, createTeam(body.value).value)
    ensures body.Parsed? && createTeam(body.value).Some? && createTeam(body.value).value != ErrTeamExists ==>
              r.status == StatusInternalServerError
    ensures r.status < 300 <==> body.Parsed? && createTeam(body.value).None?
  {
    match body
    case Malformed(msg) => ErrorReply(StatusBadRequest, InvalidRequest, msg)
    case Parsed(team) =>
      match createTeam(team)
      case None => Response(StatusCreated, TeamEnvelope(team))
      case Some(ErrTeamExists) => ErrorReply(StatusBadRequest, TeamExists, "team_name already exists")
      case Some(e) => ErrorReply(StatusInternalServerError, InternalError, ErrorText(e))
  }

  /**
   * GET /team/get. An empty name is a 400 and storage is not consulted;
   * NOT_FOUND is a 404; the team itself is the 200 body.
   */
  function GetTeam(teamName: string, getTeam: string -> Result<Team, StoreError>): (r: Response)
    ensures teamName == "" ==> r == ErrorReply(StatusBadRequest, InvalidRequest, "team_name is required")
    ensures teamName != "" && getTeam(teamName).Ok? ==> r == Response(StatusOK, TeamBody(getTeam(teamName).value))
    ensures teamName != "" && getTeam(teamName) == Err(ErrNotFound) ==>
              r == ErrorReply(StatusNotFound, NotFound, "resource not found")
    ensures teamName != "" && getTeam(teamName).Err? ==> Reports(r, getTeam(teamName).error)
    ensures teamName != "" && getTeam(teamName).Err? && getTeam(teamName).error != ErrNotFound ==>
              r.status == StatusInternalServerError
    ensures r.status < 300 <==> teamName != "" && getTeam(teamName).Ok?
  {
    if teamName == "" then
      ErrorReply(StatusBadRequest, InvalidRequest, "team_name is required")
    else
      match getTeam(teamName)
      case Ok(team) => Response(StatusOK, TeamBody(team))
      case Err(ErrNotFound) => ErrorReply(StatusNotFound, NotFound, "resource not found")
      case Err(e) => ErrorReply(StatusInternalServerError, InternalError, ErrorText(e))
  }
}
