/**
 * Domain records of the reviewer-assignment service, the API error codes,
 * and the sentinel errors the storage layer returns.
 */
module Models {

  datatype Option<+T> = None | Some(value: T)

  datatype Result<+T, +E> = Ok(value: T) | Err(error: E)

  /** An opaque point in time; the database clock is an input of the model. */
  type Stamp = nat

  /** The error codes an API error body can carry. */
  datatype ErrorCode =
    | TeamExists
    | PrExists
    | PrMerged
    | NotAssigned
    | NoCandidate
    | NotFound
    | InvalidRequest
    | InternalError

  /** The wire text of an error code. */
  function CodeText(c: ErrorCode): string
  {
    match c
    case TeamExists => "TEAM_EXISTS"
    case PrExists => "PR_EXISTS"
    case PrMerged => "PR_MERGED"
    case NotAssigned => "NOT_ASSIGNED"
    case NoCandidate => "NO_CANDIDATE"
    case NotFound => "NOT_FOUND"
    case InvalidRequest => "INVALID_REQUEST"
    case InternalError => "INTERNAL_ERROR"
  }

  /**
   * What a storage operation can fail with: one of the six sentinel errors,
   * or an error raised by the database driver, carrying its message.
   */
  datatype StoreError =
    | ErrTeamExists
    | ErrPrExists
    | ErrPrMerged
    | ErrNotAssigned
    | ErrNoCandidate
    | ErrNotFound
    | ErrDriver(message: string)

  /** The text `Error()` gives for a storage error. */
  function ErrorText(e: StoreError): string
  {
    match e
    case ErrTeamExists => "TEAM_EXISTS"
    case ErrPrExists => "PR_EXISTS"
    case ErrPrMerged => "PR_MERGED"
    case ErrNotAssigned => "NOT_ASSIGNED"
    case ErrNoCandidate => "NO_CANDIDATE"
    case ErrNotFound => "NOT_FOUND"
    case ErrDriver(m) => m
  }

  /**
   * The API code that shares its text with a sentinel error; a driver error
   * has none.
   */
  function SentinelCode(e: StoreError): (r: Option<ErrorCode>)
    ensures r.None? <==> e.ErrDriver?
    ensures r.Some? ==> CodeText(r.value) == ErrorText(e)
    ensures r.Some? ==> r.value != InvalidRequest && r.value != InternalError
  {
    match e
    case ErrTeamExists => Some(TeamExists)
    case ErrPrExists => Some(PrExists)
    case ErrPrMerged => Some(PrMerged)
    case ErrNotAssigned => Some(NotAssigned)
    case ErrNoCandidate => Some(NoCandidate)
    case ErrNotFound => Some(NotFound)
    case ErrDriver(_) => None
  }

  datatype PrStatus = Open | Merged

  datatype ErrorDetail = ErrorDetail(code: ErrorCode, message: string)

  /** The error body `{"error": {"code": ..., "message": ...}}`. */
  datatype ErrorResponse = ErrorResponse(error: ErrorDetail)

  datatype TeamMember = TeamMember(userId: string, username: string, isActive: bool)

  datatype Team = Team(teamName: string, members: seq<TeamMember>)

  datatype User = User(userId: string, username: string, teamName: string, isActive: bool)

  /** A pull request as the API returns it, with its assigned reviewers. */
  datatype PullRequest = PullRequest(
    pullRequestId: string,
    pullRequestName: string,
    authorId: string,
    status: PrStatus,
    assignedReviewers: seq<string>,
    createdAt: Stamp,
    mergedAt: Option<Stamp>)

  datatype PullRequestShort = PullRequestShort(
    pullRequestId: string,
    pullRequestName: string,
    authorId: string,
    status: PrStatus)

  datatype SetActiveRequest = SetActiveRequest(userId: string, isActive: bool)

  datatype CreatePRRequest = CreatePRRequest(pullRequestId: string, pullRequestName: string, authorId: string)

  datatype MergePRRequest = MergePRRequest(pullRequestId: string)

  datatype ReassignRequest = ReassignRequest(pullRequestId: string, oldUserId: string)

  datatype UserPRsResponse = UserPRsResponse(userId: string, pullRequests: seq<PullRequestShort>)

  /** System-wide counters; the floating-point average is not part of this model. */
  datatype SystemStats = SystemStats(
    totalTeams: int,
    totalUsers: int,
    totalPRs: int,
    totalOpenPRs: int,
    totalMergedPRs: int,
    totalReviews: int)

  /** The zero value of the system counters. */
  const ZeroSystemStats := SystemStats(0, 0, 0, 0, 0, 0)

  datatype TopReviewer = TopReviewer(userId: string, username: string, count: int)

  datatype UserStats = UserStats(
    userId: string,
    username: string,
    teamName: string,
    isActive: bool,
    prsCount: int,
    reviewsCount: int)

  datatype PRStats = PRStats(
    pullRequestId: string,
    pullRequestName: string,
    authorId: string,
    authorName: string,
    status: PrStatus,
    reviewersCount: int,
    createdAt: Stamp,
    mergedAt: Option<Stamp>)

  /**
   * The stats payload; each endpoint fills only its own parts. The system
   * counters are a plain record, never omitted: endpoints that do not fill
   * them send `ZeroSystemStats`.
   */
  datatype StatsResponse = StatsResponse(
    systemStats: SystemStats,
    topReviewers: seq<TopReviewer>,
    userStats: seq<UserStats>,
    prStats: seq<PRStats>)
}
