/**
 * The stats endpoints. The aggregate queries themselves are outside this
 * model; the handlers forward their results or turn any error into a 500.
 */
module StatsHandlers {
  import opened Models
  import opened Http
  import opened TeamHandlers

  const DefaultLimit := 10
  const MaxLimit := 50
  const SystemTopLimit := 5

  /**
   * The effective `limit` of the top-reviewers query. `parsed` is the
   * integer the query parameter parses to (a missing parameter reads as
   * "10"), or None whenever `strconv.Atoi` fails on it: text that is not a
   * decimal integer, and also a decimal outside the 64-bit range, so that
   * `limit=99999999999999999999` gives 10 and not 50.
   */
  function EffectiveLimit(parsed: Option<int>): (limit: int)
    ensures 1 <= limit <= MaxLimit
    ensures parsed.None? ==> limit == DefaultLimit
    ensures parsed.Some? && parsed.value <= 0 ==> limit == DefaultLimit
    ensures parsed.Some? && parsed.value > MaxLimit ==> limit == MaxLimit
    ensures parsed.Some? && 1 <= parsed.value <= MaxLimit ==> limit == parsed.value
  {
    var limit := if parsed.None? || parsed.value <= 0 then DefaultLimit else parsed.value;
    if limit > MaxLimit then MaxLimit else limit
  }

  /** Clamping an effective limit again changes nothing. */
  lemma EffectiveLimitIdempotent(parsed: Option<int>)
    ensures EffectiveLimit(Some(EffectiveLimit(parsed))) == EffectiveLimit(parsed)
  {
  }

  /** GET /stats/top-reviewers: queries with the clamped limit. */
  function GetTopReviewers(parsed: Option<int>, getTopReviewers: int -> Result<seq<TopReviewer>, StoreError>): (r: Response)
    ensures getTopReviewers(EffectiveLimit(parsed)).Ok? ==>
              r == Response(StatusOK, StatsBody(StatsResponse(ZeroSystemStats, getTopReviewers(EffectiveLimit(parsed)).value, [], [])))
    ensures getTopReviewers(EffectiveLimit(parsed)).Err? ==>
              r == ErrorReply(StatusInternalServerError, InternalError, ErrorText(getTopReviewers(EffectiveLimit(parsed)).error))
  {
    match getTopReviewers(EffectiveLimit(parsed))
    case Ok(top) => Response(StatusOK, StatsBody(StatsResponse(ZeroSystemStats, top, [], [])))
    case Err(e) => ErrorReply(StatusInternalServerError, InternalError, ErrorText(e))
  }

  /** GET /stats/system: the system counters plus the top five reviewers. */
  function GetSystemStats(getSystemStats: Result<SystemStats, StoreError>,
                          getTopReviewers: int -> Result<seq<TopReviewer>, StoreError>): (r: Response)
    ensures getSystemStats.Ok? && getTopReviewers(SystemTopLimit).Ok? ==>
              r == Response(StatusOK, StatsBody(StatsResponse(getSystemStats.value, getTopReviewers(SystemTopLimit).value, [], [])))
    ensures getSystemStats.Err? ==>
              r == ErrorReply(StatusInternalServerError, InternalError, ErrorText(getSystemStats.error))
    ensures getSystemStats.Ok? && getTopReviewers(SystemTopLimit).Err? ==>
              r == ErrorReply(StatusInternalServerError, InternalError, ErrorText(getTopReviewers(SystemTopLimit).error))
  {
    match getSystemStats
    case Err(e) => ErrorReply(StatusInternalServerError, InternalError, ErrorText(e))
    case Ok(system) =>
      match getTopReviewers(SystemTopLimit)
      case Err(e) => ErrorReply(StatusInternalServerError, InternalError, ErrorText(e))
      case Ok(top) => Response(StatusOK, StatsBody(StatsResponse(system, top, [], [])))
  }

  /** GET /stats/users. */
  function GetUserStats(getUserStats: Result<seq<UserStats>, StoreError>): (r: Response)
    ensures getUserStats.Ok? ==> r == Response(StatusOK, StatsBody(StatsResponse(ZeroSystemStats, [], getUserStats.value, [])))
    ensures getUserStats.Err? ==>
              r == ErrorReply(StatusInternalServerError, InternalError, ErrorText(getUserStats.error))
  {
    match getUserStats
    case Ok(stats) => Response(StatusOK, StatsBody(StatsResponse(ZeroSystemStats, [], stats, [])))
    case Err(e) => ErrorReply(StatusInternalServerError, InternalError, ErrorText(e))
  }

  /** GET /stats/prs. */
  function GetPRStats(getPRStats: Result<seq<PRStats>, StoreError>): (r: Response)
    ensures getPRStats.Ok? ==> r == Response(StatusOK, StatsBody(StatsResponse(ZeroSystemStats, [], [], getPRStats.value)))
    ensures getPRStats.Err? ==>
              r == ErrorReply(StatusInternalServerError, InternalError, ErrorText(getPRStats.error))
  {
    match getPRStats
    case Ok(stats) => Response(StatusOK, StatsBody(StatsResponse(ZeroSystemStats, [], [], stats)))
    case Err(e) => ErrorReply(StatusInternalServerError, InternalError, ErrorText(e))
  }
}
