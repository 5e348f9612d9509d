/**
 * The storage layer: one object holding the four tables, with one method
 * per storage operation. The writing operations each run in one
 * transaction, and the reads and the active-flag update are single
 * statements or separate reads; the model treats every method as one
 * atomic step. On an error a method leaves every table as it found it (the
 * transaction is rolled back), and on success it reaches exactly
 * `Workflow.Apply` of its step.
 */
module Storage {
  import opened Models
  import opened Workflow

  class Database {
    var teams: set<string>
    var users: map<string, UserRow>
    var pullRequests: map<string, PrRow>
    var assignments: set<(string, string)>

    /** The tables as a value. */
    function State(): Store
      reads this
    {
      Store(teams, users, pullRequests, assignments)
    }

    ghost predicate Valid()
      reads this
    {
      Inv(State())
    }

    constructor ()
      ensures Valid()
      ensures State() == Store({}, map[], map[], {})
    {
      teams, users, pullRequests, assignments := {}, map[], map[], {};
    }

    /**
     * Rejects a taken team name; otherwise inserts the team and upserts
     * every listed member into it, in list order.
     */
    method CreateTeam(team: Team) returns (err: Option<StoreError>)
      requires Valid()
      modifies this
      ensures Valid()
      ensures old(team.teamName in teams) ==> err == Some(ErrTeamExists) && State() == old(State())
      ensures old(team.teamName !in teams) ==> err == None && State() == Apply(old(State()), CreateTeamStep(team))
    {
      if team.teamName in teams {
        return Some(ErrTeamExists);
      }
      ghost var s0 := State();
      teams := teams + {team.teamName};
      var i := 0;
      while i < |team.members|
        invariant 0 <= i <= |team.members|
        invariant users == UpsertMembers(s0.users, team.teamName, team.members[..i])
        invariant teams == s0.teams + {team.teamName}
        invariant pullRequests == s0.pullRequests && assignments == s0.assignments
      {
        var m := team.members[i];
        assert team.members[..i + 1][..i] == team.members[..i];
        users := users[m.userId := UserRow(m.username, team.teamName, m.isActive)];
        i := i + 1;
      }
      assert team.members[..i] == team.members;
      StepPreservesInv(s0, CreateTeamStep(team));
      return None;
    }

    /**
     * The members of team `teamName`, each once; NOT_FOUND when it has none,
     * whether or not the team row exists.
     */
    method GetTeam(teamName: string) returns (r: Result<Team, StoreError>)
      ensures r.Err? <==> TeamMembers(State(), teamName) == {}
      ensures r.Err? ==> r.error == ErrNotFound
      ensures r.Ok? ==> r.value.teamName == teamName
      ensures r.Ok? ==> forall m :: m in r.value.members <==> m in TeamMembers(State(), teamName)
      ensures r.Ok? ==> forall i, j :: 0 <= i < j < |r.value.members| ==>
                r.value.members[i].userId != r.value.members[j].userId
    {
      var members: seq<TeamMember> := [];
      var rest := users.Keys;
      while rest != {}
        invariant rest <= users.Keys
        invariant forall k :: 0 <= k < |members| ==>
                    members[k].userId in users.Keys - rest && members[k] in TeamMembers(State(), teamName)
        invariant forall u :: u in users.Keys - rest && users[u].teamName == teamName ==>
                    MemberView(State(), u) in members
        invariant forall i, j :: 0 <= i < j < |members| ==> members[i].userId != members[j].userId
        decreases rest
      {
        var u :| u in rest;
        if users[u].teamName == teamName {
          members := members + [TeamMember(u, users[u].username, users[u].isActive)];
        }
        rest := rest - {u};
      }
      forall m | m in TeamMembers(State(), teamName) ensures m in members {
        var u :| u in users && users[u].teamName == teamName && m == MemberView(State(), u);
      }
      if |members| == 0 {
        return Err(ErrNotFound);
      }
      assert members[0] in TeamMembers(State(), teamName);
      return Ok(Team(teamName, members));
    }

    /**
     * Sets a user's active flag and returns the user; NOT_FOUND for an
     * unknown id. Assignments the user holds stay as they are.
     */
    method SetUserActive(userId: string, isActive: bool) returns (r: Result<User, StoreError>)
      requires Valid()
      modifies this
      ensures Valid()
      ensures old(userId !in users) ==> r == Err(ErrNotFound) && State() == old(State())
      ensures old(userId in users) ==>
        && r == Ok(User(userId, old(users[userId].username), old(users[userId].teamName), isActive))
        && State() == Apply(old(State()), SetActiveStep(userId, isActive))
        && assignments == old(assignments)
    {
      if userId !in users {
        return Err(ErrNotFound);
      }
      ghost var s0 := State();
      var row := users[userId].(isActive := isActive);
      users := users[userId := row];
      StepPreservesInv(s0, SetActiveStep(userId, isActive));
      return Ok(User(userId, row.username, row.teamName, isActive));
    }

    /**
     * Creates an OPEN pull request and assigns up to two active teammates
     * of its author. PR_EXISTS is checked before the author, so it wins
     * when both fail.
     */
    method CreatePullRequest(req: CreatePRRequest, now: Stamp) returns (r: Result<PullRequest, StoreError>)
      requires Valid()
      modifies this
      ensures Valid()
      ensures old(req.pullRequestId in pullRequests) ==> r == Err(ErrPrExists) && State() == old(State())
      ensures old(req.pullRequestId !in pullRequests && req.authorId !in users) ==>
                r == Err(ErrNotFound) && State() == old(State())
      ensures old(req.pullRequestId !in pullRequests && req.authorId in users) ==>
        && r.Ok?
        && ValidChoice(old(State()), req.authorId, r.value.assignedReviewers)
        && State() == Apply(old(State()), CreatePrStep(req, r.value.assignedReviewers, now))
        && r.value == PullRequest(req.pullRequestId, req.pullRequestName, req.authorId, Open,
                                  r.value.assignedReviewers, now, None)
        && Describes(State(), r.value)
    {
      if req.pullRequestId in pullRequests {
        return Err(ErrPrExists);
      }
      if req.authorId !in users {
        return Err(ErrNotFound);
      }
      ghost var s0 := State();
      pullRequests := pullRequests[req.pullRequestId := PrRow(req.pullRequestName, req.authorId, Open, now, None)];
      var chosen := PickReviewers(req.authorId);
      assert Eligible(State(), req.authorId) == Eligible(s0, req.authorId);
      AssignReviewers(req.pullRequestId, chosen);
      assert State() == Apply(s0, CreatePrStep(req, chosen, now));
      StepPreservesInv(s0, CreatePrStep(req, chosen, now));
      CreatePrAssigns(s0, req, chosen, now);
      return Ok(PullRequest(req.pullRequestId, req.pullRequestName, req.authorId, Open, chosen, now, None));
    }

    /**
     * The candidate query of pull-request creation: up to two active
     * teammates of the author, other than the author, in no defined order.
     */
    method PickReviewers(authorId: string) returns (chosen: seq<string>)
      requires authorId in users
      ensures ValidChoice(State(), authorId, chosen)
    {
      var teamName := users[authorId].teamName;
      var pool := set u | u in users && u != authorId && users[u].isActive && users[u].teamName == teamName;
      assert pool == Eligible(State(), authorId);
      chosen := [];
      while |chosen| < 2 && pool != {}
        invariant |chosen| <= 2
        invariant Distinct(chosen)
        invariant forall k :: 0 <= k < |chosen| ==> chosen[k] in Eligible(State(), authorId)
        invariant pool == Eligible(State(), authorId) - Elems(chosen)
        invariant |pool| + |chosen| == |Eligible(State(), authorId)|
        decreases 2 - |chosen|
      {
        var c :| c in pool;
        DistinctCard(chosen);
        chosen := chosen + [c];
        pool := pool - {c};
        DistinctCard(chosen);
      }
    }

    /** Inserts one assignment row per chosen reviewer of pull request `prId`. */
    method AssignReviewers(prId: string, chosen: seq<string>)
      modifies this
      ensures assignments == old(assignments) + AssignmentsFor(prId, chosen)
      ensures teams == old(teams) && users == old(users) && pullRequests == old(pullRequests)
    {
      var i := 0;
      while i < |chosen|
        invariant 0 <= i <= |chosen|
        invariant assignments == old(assignments) + AssignmentsFor(prId, chosen[..i])
        invariant teams == old(teams) && users == old(users) && pullRequests == old(pullRequests)
      {
        assert chosen[..i + 1] == chosen[..i] + [chosen[i]];
        assignments := assignments + {(prId, chosen[i])};
        i := i + 1;
      }
      assert chosen[..i] == chosen;
    }

    /**
     * Reads a pull request back with its reviewers. Every caller has found
     * the row within the same transaction.
     */
    method LoadPullRequest(prId: string) returns (v: PullRequest)
      requires prId in pullRequests
      ensures v.pullRequestId == prId
      ensures Describes(State(), v)
    {
      var row := pullRequests[prId];
      var reviewers: seq<string> := [];
      var rest := assignments;
      while rest != {}
        invariant rest <= assignments
        invariant forall k :: 0 <= k < |reviewers| ==>
                    (prId, reviewers[k]) in assignments - rest
        invariant forall a :: a in assignments - rest && a.0 == prId ==> a.1 in reviewers
        invariant Distinct(reviewers)
        decreases rest
      {
        var a :| a in rest;
        if a.0 == prId {
          reviewers := reviewers + [a.1];
        }
        rest := rest - {a};
      }
      forall u ensures u in Elems(reviewers) <==> u in ReviewersOf(State(), prId) {
        if u in ReviewersOf(State(), prId) {
          assert (prId, u) in assignments;
        }
        if u in Elems(reviewers) {
          var k :| 0 <= k < |reviewers| && reviewers[k] == u;
          assert (prId, reviewers[k]) in assignments;
        }
      }
      v := PullRequest(prId, row.name, row.authorId, row.status, reviewers, row.createdAt, row.mergedAt);
    }

    /**
     * Merges a pull request: NOT_FOUND for an unknown id; an already merged
     * one is returned as it is; otherwise it becomes MERGED with stamp
     * `now`. The reviewers never change.
     */
    method MergePullRequest(prId: string, now: Stamp) returns (r: Result<PullRequest, StoreError>)
      requires Valid()
      modifies this
      ensures Valid()
      ensures old(prId !in pullRequests) ==> r == Err(ErrNotFound) && State() == old(State())
      ensures old(prId in pullRequests) ==>
        && r.Ok?
        && State() == Apply(old(State()), MergeStep(prId, now))
        && r.value.pullRequestId == prId
        && Describes(State(), r.value)
        && r.value.status == Merged
        && assignments == old(assignments)
      ensures old(prId in pullRequests && pullRequests[prId].status == Merged) ==> State() == old(State())
    {
      if prId !in pullRequests {
        return Err(ErrNotFound);
      }
      ghost var s0 := State();
      if pullRequests[prId].status == Merged {
        var v := LoadPullRequest(prId);
        return Ok(v);
      }
      pullRequests := pullRequests[prId := pullRequests[prId].(status := Merged, mergedAt := Some(now))];
      StepPreservesInv(s0, MergeStep(prId, now));
      var v := LoadPullRequest(prId);
      return Ok(v);
    }

    /**
     * Replaces reviewer `oldUserId` of a pull request by an eligible
     * teammate not yet assigned to it. The checks run in order: NOT_FOUND,
     * PR_MERGED, NOT_ASSIGNED, NO_CANDIDATE.
     */
    method ReassignReviewer(prId: string, oldUserId: string) returns (r: Result<(PullRequest, string), StoreError>)
      requires Valid()
      modifies this
      ensures Valid()
      ensures old(prId !in pullRequests) ==> r == Err(ErrNotFound) && State() == old(State())
      ensures old(prId in pullRequests && pullRequests[prId].status == Merged) ==>
                r == Err(ErrPrMerged) && State() == old(State())
      ensures old(prId in pullRequests && pullRequests[prId].status == Open && (prId, oldUserId) !in assignments) ==>
                r == Err(ErrNotAssigned) && State() == old(State())
      ensures old(prId in pullRequests && pullRequests[prId].status == Open && (prId, oldUserId) in assignments) ==>
        if Candidates(old(State()), prId) == {} then
          r == Err(ErrNoCandidate) && State() == old(State())
        else
          && r.Ok?
          && r.value.1 in Candidates(old(State()), prId)
          && State() == Apply(old(State()), ReassignStep(prId, oldUserId, r.value.1))
          && r.value.0.pullRequestId == prId
          && Describes(State(), r.value.0)
    {
      if prId !in pullRequests {
        return Err(ErrNotFound);
      }
      var row := pullRequests[prId];
      if row.status == Merged {
        return Err(ErrPrMerged);
      }
      if (prId, oldUserId) !in assignments {
        return Err(ErrNotAssigned);
      }
      ghost var s0 := State();
      var teamName := users[row.authorId].teamName;
      var candidates := set u | u in users && u != row.authorId && users[u].isActive
                                  && users[u].teamName == teamName && (prId, u) !in assignments;
      assert candidates == Candidates(s0, prId) by {
        forall u ensures u in candidates <==> u in Candidates(s0, prId) {
          if (prId, u) in assignments {
            assert u in ReviewersOf(s0, prId);
          }
        }
      }
      if candidates == {} {
        return Err(ErrNoCandidate);
      }
      var newUserId :| newUserId in candidates;
      assignments := assignments - {(prId, oldUserId)} + {(prId, newUserId)};
      StepPreservesInv(s0, ReassignStep(prId, oldUserId, newUserId));
      var v := LoadPullRequest(prId);
      return Ok((v, newUserId));
    }

    /**
     * The pull requests a user reviews, each once; NOT_FOUND for an unknown
     * user.
     */
    method GetUserPullRequests(userId: string) returns (r: Result<UserPRsResponse, StoreError>)
      ensures r.Err? <==> userId !in users
      ensures r.Err? ==> r.error == ErrNotFound
      ensures r.Ok? ==> r.value.userId == userId
      ensures r.Ok? ==> forall x :: x in r.value.pullRequests <==> x in ReviewQueue(State(), userId)
      ensures r.Ok? ==> forall i, j :: 0 <= i < j < |r.value.pullRequests| ==>
                r.value.pullRequests[i].pullRequestId != r.value.pullRequests[j].pullRequestId
    {
      if userId !in users {
        return Err(ErrNotFound);
      }
      var prs: seq<PullRequestShort> := [];
      var rest := assignments;
      while rest != {}
        invariant rest <= assignments
        invariant forall k :: 0 <= k < |prs| ==>
                    (prs[k].pullRequestId, userId) in assignments - rest && prs[k] in ReviewQueue(State(), userId)
        invariant forall a :: a in assignments - rest && a.1 == userId && a.0 in pullRequests ==>
                    ShortView(State(), a.0) in prs
        invariant forall i, j :: 0 <= i < j < |prs| ==> prs[i].pullRequestId != prs[j].pullRequestId
        decreases rest
      {
        var a :| a in rest;
        if a.1 == userId && a.0 in pullRequests {
          var row := pullRequests[a.0];
          prs := prs + [PullRequestShort(a.0, row.name, row.authorId, row.status)];
        }
        rest := rest - {a};
      }
      forall x | x in ReviewQueue(State(), userId) ensures x in prs {
        var a :| a in assignments && a.1 == userId && a.0 in pullRequests && x == ShortView(State(), a.0);
      }
      return Ok(UserPRsResponse(userId, prs));
    }
  }
}
