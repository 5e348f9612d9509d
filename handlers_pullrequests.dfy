/** The pull-request endpoints. */
module PullRequestHandlers {
  import opened Models
  import opened Http
  import opened TeamHandlers

  /** POST /pullRequest/create: PR_EXISTS is a 409, NOT_FOUND a 404; the pull request is returned under key `pr` with 201. */
  function CreatePR(body: Bound<CreatePRRequest>, createPullRequest: CreatePRRequest -> Result<PullRequest, StoreError>): (r: Response)
    ensures body.Malformed? ==> r == ErrorReply(StatusBadRequest, InvalidRequest, body.message)
    ensures body.Parsed? && createPullRequest(body.value).Ok? ==>
              r == Response(StatusCreated, PrEnvelope(createPullRequest(body.value).value))
    ensures body.Parsed? && createPullRequest(body.value) == Err(ErrPrExists) ==>
              r == ErrorReply(StatusConflict, PrExists, "PR id already exists")
    ensures body.Parsed? && createPullRequest(body.value) == Err(ErrNotFound) ==>
              r == ErrorReply(StatusNotFound, NotFound, "resource not found")
    ensures body.Parsed? && createPullRequest(body.value).Err? ==> Reports(r, createPullRequest(body.value).error)
    ensures body.Parsed? && createPullRequest(body.value).Err?
              && createPullRequest(body.value).error !in {ErrPrExists, ErrNotFound} ==>
              r.status == StatusInternalServerError
    ensures r.status < 300 <==> body.Parsed? && createPullRequest(body.value).Ok?
  {
    match body
    case Malformed(msg) => ErrorReply(StatusBadRequest, InvalidRequest, msg)
    case Parsed(req) =>
      match createPullRequest(req)
      case Ok(pr) => Response(StatusCreated, PrEnvelope(pr))
      case Err(ErrPrExists) => ErrorReply(StatusConflict, PrExists, "PR id already exists")
      case Err(ErrNotFound) => ErrorReply(StatusNotFound, NotFound, "resource not found")
      case Err(e) => ErrorReply(StatusInternalServerError, InternalError, ErrorText(e))
  }

  /** POST /pullRequest/merge: NOT_FOUND is a 404 and every other error a 500; there is no 409. */
  function MergePR(body: Bound<MergePRRequest>, mergePullRequest: string -> Result<PullRequest, StoreError>): (r: Response)
    ensures body.Malformed? ==> r == ErrorReply(StatusBadRequest, InvalidRequest, body.message)
    ensures body.Parsed? && mergePullRequest(body.value.pullRequestId).Ok? ==>
              r == Response(StatusOK, PrEnvelope(mergePullRequest(body.value.pullRequestId).value))
    ensures body.Parsed? && mergePullRequest(body.value.pullRequestId) == Err(ErrNotFound) ==>
              r == ErrorReply(StatusNotFound, NotFound, "resource not found")
    ensures body.Parsed? && mergePullRequest(body.value.pullRequestId).Err? ==>
              Reports(r, mergePullRequest(body.value.pullRequestId).error)
    ensures body.Parsed? && mergePullRequest(body.value.pullRequestId).Err?
              && mergePullRequest(body.value.pullRequestId).error != ErrNotFound ==>
              r.status == StatusInternalServerError
    ensures r.status != StatusConflict
    ensures r.status < 300 <==> body.Parsed? && mergePullRequest(body.value.pullRequestId).Ok?
  {
    match body
    case Malformed(msg) => ErrorReply(StatusBadRequest, InvalidRequest, msg)
    case Parsed(req) =>
      match mergePullRequest(req.pullRequestId)
      case Ok(pr) => Response(StatusOK, PrEnvelope(pr))
      case Err(ErrNotFound) => ErrorReply(StatusNotFound, NotFound, "resource not found")
      case Err(e) => ErrorReply(StatusInternalServerError, InternalError, ErrorText(e))
  }

  /**
   * POST /pullRequest/reassign: NOT_FOUND is a 404; PR_MERGED,
   * NOT_ASSIGNED and NO_CANDIDATE are 409s, each with its own code; success
   * returns the pull request and `replaced_by`, the new reviewer's id.
   */
  function Reassign(body: Bound<ReassignRequest>,
                    reassignReviewer: (string, string) -> Result<(PullRequest, string), StoreError>): (r: Response)
    ensures body.Malformed? ==> r == ErrorReply(StatusBadRequest, InvalidRequest, body.message)
    ensures body.Parsed? && reassignReviewer(body.value.pullRequestId, body.value.oldUserId).Ok? ==>
              var res := reassignReviewer(body.value.pullRequestId, body.value.oldUserId).value;
              r == Response(StatusOK, ReassignEnvelope(res.0, res.1))
    ensures body.Parsed? && reassignReviewer(body.value.pullRequestId, body.value.oldUserId) == Err(ErrNotFound) ==>
              r == ErrorReply(StatusNotFound, NotFound, "resource not found")
    ensures body.Parsed? && reassignReviewer(body.value.pullRequestId, body.value.oldUserId) == Err(ErrPrMerged) ==>
              r == ErrorReply(StatusConflict, PrMerged, "cannot reassign on merged PR")
    ensures body.Parsed? && reassignReviewer(body.value.pullRequestId, body.value.oldUserId) == Err(ErrNotAssigned) ==>
              r == ErrorReply(StatusConflict, NotAssigned, "reviewer is not assigned to this PR")
    ensures body.Parsed? && reassignReviewer(body.value.pullRequestId, body.value.oldUserId) == Err(ErrNoCandidate) ==>
              r == ErrorReply(StatusConflict, NoCandidate, "no active replacement candidate in team")
    ensures body.Parsed? && reassignReviewer(body.value.pullRequestId, body.value.oldUserId).Err? ==>
              Reports(r, reassignReviewer(body.value.pullRequestId, body.value.oldUserId).error)
    ensures body.Parsed? && reassignReviewer(body.value.pullRequestId, body.value.oldUserId).Err? ==>
              var e := reassignReviewer(body.value.pullRequestId, body.value.oldUserId).error;
              (r.status == StatusInternalServerError <==> e !in {ErrNotFound, ErrPrMerged, ErrNotAssigned, ErrNoCandidate})
    ensures r.status < 300 <==> body.Parsed? && reassignReviewer(body.value.pullRequestId, body.value.oldUserId).Ok?
  {
    match body
    case Malformed(msg) => ErrorReply(StatusBadRequest, InvalidRequest, msg)
    case Parsed(req) =>
      match reassignReviewer(req.pullRequestId, req.oldUserId)
      case Ok((pr, newUserId)) => Response(StatusOK, ReassignEnvelope(pr, newUserId))
      case Err(ErrNotFound) => ErrorReply(StatusNotFound, NotFound, "resource not found")
      case Err(ErrPrMerged) => ErrorReply(StatusConflict, PrMerged, "cannot reassign on merged PR")
      case Err(ErrNotAssigned) => ErrorReply(StatusConflict, NotAssigned, "reviewer is not assigned to this PR")
      case Err(ErrNoCandidate) => ErrorReply(StatusConflict, NoCandidate, "no active replacement candidate in team")
      case Err(e) => ErrorReply(StatusInternalServerError, InternalError, ErrorText(e))
  }
}
