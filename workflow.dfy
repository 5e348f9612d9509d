/**
 * The relational state of the service as a value, the integrity invariant
 * it keeps, and the successful effect of every storage transition. The
 * class in module Storage performs these transitions step by step and is
 * proved to reach exactly the states computed here; the lemmas below prove
 * what the workflow promises about them.
 */
module Workflow {
  import opened Models

  datatype UserRow = UserRow(username: string, teamName: string, isActive: bool)

  datatype PrRow = PrRow(
    name: string,
    authorId: string,
    status: PrStatus,
    createdAt: Stamp,
    mergedAt: Option<Stamp>)

  /**
   * The four tables: team names, users by id, pull requests by id, and the
   * reviewer assignments as (pull request id, reviewer id) pairs, the
   * primary key of the assignment table.
   */
  datatype Store = Store(
    teams: set<string>,
    users: map<string, UserRow>,
    pullRequests: map<string, PrRow>,
    assignments: set<(string, string)>)

  function Min(a: int, b: int): int
  {
    if a <= b then a else b
  }

  function Elems(xs: seq<string>): set<string>
  {
    set x | x in xs
  }

  predicate Distinct(xs: seq<string>)
  {
    forall i, j :: 0 <= i < j < |xs| ==> xs[i] != xs[j]
  }

  /** The users assigned to review pull request `prId`. */
  function ReviewersOf(s: Store, prId: string): set<string>
  {
    set a | a in s.assignments && a.0 == prId :: a.1
  }

  /** Active teammates of the author, other than the author. */
  function Eligible(s: Store, authorId: string): set<string>
  {
    set u | u in s.users && authorId in s.users && u != authorId
              && s.users[u].isActive && s.users[u].teamName == s.users[authorId].teamName
  }

  /** Users that may replace a reviewer: eligible and not yet assigned to the pull request. */
  function Candidates(s: Store, prId: string): set<string>
  {
    if prId in s.pullRequests then Eligible(s, s.pullRequests[prId].authorId) - ReviewersOf(s, prId) else {}
  }

  /**
   * The integrity the schema and the workflow keep together: the foreign
   * keys, the author never reviewing their own pull request, at most two
   * reviewers per pull request, and a merge stamp exactly on merged ones.
   */
  predicate Inv(s: Store)
  {
    && (forall u :: u in s.users ==> s.users[u].teamName in s.teams)
    && (forall p :: p in s.pullRequests ==> s.pullRequests[p].authorId in s.users)
    && (forall a :: a in s.assignments ==>
          a.0 in s.pullRequests && a.1 in s.users && a.1 != s.pullRequests[a.0].authorId)
    && (forall p :: p in s.pullRequests ==> |ReviewersOf(s, p)| <= 2)
    && (forall p :: p in s.pullRequests ==>
          (s.pullRequests[p].status == Merged <==> s.pullRequests[p].mergedAt.Some?))
  }

  // ---------------------------------------------------------------------
  // Team creation: the member upsert

  function MemberIds(members: seq<TeamMember>): set<string>
  {
    set m | m in members :: m.userId
  }

  function MemberRow(m: TeamMember, teamName: string): UserRow
  {
    UserRow(m.username, teamName, m.isActive)
  }

  /** Entry `i` is the last one in `members` for its user id. */
  predicate LastEntryFor(members: seq<TeamMember>, i: int)
    requires 0 <= i < |members|
  {
    forall j :: i < j < |members| ==> members[j].userId != members[i].userId
  }

  /** Insert-or-update every member, in list order, binding each to `teamName`. */
  function UpsertMembers(users: map<string, UserRow>, teamName: string, members: seq<TeamMember>): map<string, UserRow>
    decreases |members|
  {
    if members == [] then users
    else
      var last := members[|members| - 1];
      UpsertMembers(users, teamName, members[..|members| - 1])[last.userId := MemberRow(last, teamName)]
  }

  /**
   * After the upsert every listed user exists, belongs to the team and
   * carries the fields of its last entry in the list (an existing user is
   * moved); every user not listed is untouched.
   */
  lemma {:induction false} UpsertMembersSpec(users: map<string, UserRow>, teamName: string, members: seq<TeamMember>)
    ensures UpsertMembers(users, teamName, members).Keys == users.Keys + MemberIds(members)
    ensures forall u :: u in users && u !in MemberIds(members) ==>
              UpsertMembers(users, teamName, members)[u] == users[u]
    ensures forall i :: 0 <= i < |members| && LastEntryFor(members, i) ==>
              UpsertMembers(users, teamName, members)[members[i].userId] == MemberRow(members[i], teamName)
    ensures forall u :: u in MemberIds(members) ==>
              UpsertMembers(users, teamName, members)[u].teamName == teamName
    decreases |members|
  {
    if members != [] {
      var init := members[..|members| - 1];
      var last := members[|members| - 1];
      assert members == init + [last];
      UpsertMembersSpec(users, teamName, init);
      assert MemberIds(members) == MemberIds(init) + {last.userId};
      var r := UpsertMembers(users, teamName, members);
      forall i | 0 <= i < |members| && LastEntryFor(members, i)
        ensures r[members[i].userId] == MemberRow(members[i], teamName)
      {
        if i < |members| - 1 {
          assert members[i] == init[i];
          assert LastEntryFor(init, i);
        }
      }
    }
  }

  // ---------------------------------------------------------------------
  // Pull-request creation: the initial reviewers

  /**
   * An admissible reviewer list for a new pull request of `authorId`:
   * distinct eligible teammates, as many as there are up to two.
   */
  predicate ValidChoice(s: Store, authorId: string, chosen: seq<string>)
  {
    && Distinct(chosen)
    && (forall i :: 0 <= i < |chosen| ==> chosen[i] in Eligible(s, authorId))
    && |chosen| == Min(2, |Eligible(s, authorId)|)
  }

  function AssignmentsFor(prId: string, chosen: seq<string>): set<(string, string)>
  {
    set u | u in chosen :: (prId, u)
  }

  lemma {:induction false} DistinctCard(xs: seq<string>)
    requires Distinct(xs)
    ensures |Elems(xs)| == |xs|
    decreases |xs|
  {
    if xs != [] {
      var tail := xs[1..];
      assert Distinct(tail) by {
        forall i, j | 0 <= i < j < |tail| ensures tail[i] != tail[j] {
          assert tail[i] == xs[i + 1] && tail[j] == xs[j + 1];
        }
      }
      DistinctCard(tail);
      assert Elems(xs) == {xs[0]} + Elems(tail) by {
        assert xs == [xs[0]] + tail;
      }
      assert xs[0] !in Elems(tail) by {
        forall k | 0 <= k < |tail| ensures tail[k] != xs[0] {
          assert tail[k] == xs[k + 1];
        }
      }
    }
  }

  // ---------------------------------------------------------------------
  // Transitions

  /**
   * One successful storage transition. A creation carries the reviewers
   * chosen for it and a reassignment the replacement chosen for it, since
   * the source picks them by a query with no defined order.
   */
  datatype Step =
    | CreateTeamStep(team: Team)
    | SetActiveStep(userId: string, isActive: bool)
    | CreatePrStep(req: CreatePRRequest, chosen: seq<string>, now: Stamp)
    | MergeStep(prId: string, now: Stamp)
    | ReassignStep(prId: string, oldUserId: string, newUserId: string)

  /** The step passes every check of its storage operation. */
  predicate Enabled(s: Store, step: Step)
  {
    match step
    case CreateTeamStep(team) => team.teamName !in s.teams
    case SetActiveStep(u, _) => u in s.users
    case CreatePrStep(req, chosen, _) =>
      && req.pullRequestId !in s.pullRequests
      && req.authorId in s.users
      && ValidChoice(s, req.authorId, chosen)
    case MergeStep(p, _) => p in s.pullRequests
    case ReassignStep(p, o, n) =>
      && p in s.pullRequests
      && s.pullRequests[p].status == Open
      && (p, o) in s.assignments
      && n in Candidates(s, p)
  }

  /** The state a successful step leaves behind. */
  function Apply(s: Store, step: Step): Store
    requires Enabled(s, step)
  {
    match step
    case CreateTeamStep(team) =>
      s.(teams := s.teams + {team.teamName},
         users := UpsertMembers(s.users, team.teamName, team.members))
    case SetActiveStep(u, active) =>
      s.(users := s.users[u := s.users[u].(isActive := active)])
    case CreatePrStep(req, chosen, now) =>
      s.(pullRequests := s.pullRequests[req.pullRequestId := PrRow(req.pullRequestName, req.authorId, Open, now, None)],
         assignments := s.assignments + AssignmentsFor(req.pullRequestId, chosen))
    case MergeStep(p, now) =>
      if s.pullRequests[p].status == Merged then s
      else s.(pullRequests := s.pullRequests[p := s.pullRequests[p].(status := Merged, mergedAt := Some(now))])
    case ReassignStep(p, o, n) =>
      s.(assignments := s.assignments - {(p, o)} + {(p, n)})
  }

  /** A request either succeeds as `step` or fails and changes nothing. */
  function Next(s: Store, step: Step): Store
  {
    if Enabled(s, step) then Apply(s, step) else s
  }

  function Run(s: Store, steps: seq<Step>): Store
    decreases |steps|
  {
    if steps == [] then s else Run(Next(s, steps[0]), steps[1..])
  }

  // ---------------------------------------------------------------------
  // What each transition does

  /**
   * A new team with no listed members exists as a team row, yet has no
   * members: reading it reports NOT_FOUND.
   */
  lemma EmptyTeamHasNoMembers(s: Store, name: string)
    requires Inv(s) && name !in s.teams
    ensures name in Apply(s, CreateTeamStep(Team(name, []))).teams
    ensures TeamMembers(Apply(s, CreateTeamStep(Team(name, []))), name) == {}
  {
  }

  /**
   * A new pull request gets exactly the chosen reviewers: min(2, #eligible)
   * distinct active teammates of its author, never the author; nothing
   * else about other pull requests changes.
   */
  lemma CreatePrAssigns(s: Store, req: CreatePRRequest, chosen: seq<string>, now: Stamp)
    requires Inv(s) && Enabled(s, CreatePrStep(req, chosen, now))
    ensures var s' := Apply(s, CreatePrStep(req, chosen, now));
      && s'.pullRequests[req.pullRequestId] == PrRow(req.pullRequestName, req.authorId, Open, now, None)
      && ReviewersOf(s', req.pullRequestId) == Elems(chosen)
      && |ReviewersOf(s', req.pullRequestId)| == Min(2, |Eligible(s, req.authorId)|)
      && ReviewersOf(s', req.pullRequestId) <= Eligible(s, req.authorId)
      && req.authorId !in ReviewersOf(s', req.pullRequestId)
      && (forall p :: p != req.pullRequestId ==> ReviewersOf(s', p) == ReviewersOf(s, p))
      && (forall p :: p in s.pullRequests ==> p in s'.pullRequests && s'.pullRequests[p] == s.pullRequests[p])
  {
    var s' := Apply(s, CreatePrStep(req, chosen, now));
    var id := req.pullRequestId;
    forall u ensures u in ReviewersOf(s', id) <==> u in Elems(chosen) {
      if u in ReviewersOf(s', id) {
        assert (id, u) in s'.assignments;
        assert (id, u) !in s.assignments;
      }
      if u in Elems(chosen) {
        assert (id, u) in s'.assignments;
      }
    }
    assert ReviewersOf(s', id) == Elems(chosen);
    DistinctCard(chosen);
    forall p | p != id ensures ReviewersOf(s', p) == ReviewersOf(s, p) {
      forall u ensures u in ReviewersOf(s', p) <==> u in ReviewersOf(s, p) {
        if u in ReviewersOf(s', p) {
          assert (p, u) in s'.assignments;
        }
        if u in ReviewersOf(s, p) {
          assert (p, u) in s.assignments;
        }
      }
    }
  }

  /**
   * A reassignment swaps exactly one reviewer: the old one leaves, an
   * eligible teammate not assigned before takes the slot, and the number of
   * reviewers, the pull request row and every other pull request's
   * reviewers stay as they were.
   */
  lemma ReassignSwaps(s: Store, p: string, o: string, n: string)
    requires Enabled(s, ReassignStep(p, o, n))
    ensures var s' := Apply(s, ReassignStep(p, o, n));
      && ReviewersOf(s', p) == ReviewersOf(s, p) - {o} + {n}
      && |ReviewersOf(s', p)| == |ReviewersOf(s, p)|
      && n != o && n !in ReviewersOf(s, p) && o !in ReviewersOf(s', p)
      && n in Eligible(s, s.pullRequests[p].authorId)
      && s'.pullRequests == s.pullRequests
      && (forall q :: q != p ==> ReviewersOf(s', q) == ReviewersOf(s, q))
  {
  }

  /** A merge that finds the pull request already merged changes nothing. */
  lemma MergeIdempotent(s: Store, p: string, first: Stamp, second: Stamp)
    requires p in s.pullRequests
    ensures var s' := Apply(s, MergeStep(p, first));
      && Enabled(s', MergeStep(p, second))
      && Apply(s', MergeStep(p, second)) == s'
      && s'.pullRequests[p].status == Merged
      && s'.assignments == s.assignments
  {
  }

  // ---------------------------------------------------------------------
  // Invariants over all transitions

  lemma CreateTeamPreservesInv(s: Store, team: Team)
    requires Inv(s) && Enabled(s, CreateTeamStep(team))
    ensures Inv(Apply(s, CreateTeamStep(team)))
  {
    var s' := Apply(s, CreateTeamStep(team));
    UpsertMembersSpec(s.users, team.teamName, team.members);
    forall u | u in s'.users ensures s'.users[u].teamName in s'.teams {
      if u !in MemberIds(team.members) {
        assert u in s.users;
      }
    }
    assert forall p :: ReviewersOf(s', p) == ReviewersOf(s, p);
  }

  lemma CreatePrPreservesInv(s: Store, req: CreatePRRequest, chosen: seq<string>, now: Stamp)
    requires Inv(s) && Enabled(s, CreatePrStep(req, chosen, now))
    ensures Inv(Apply(s, CreatePrStep(req, chosen, now)))
  {
    var s' := Apply(s, CreatePrStep(req, chosen, now));
    CreatePrAssigns(s, req, chosen, now);
    forall a | a in s'.assignments
      ensures a.0 in s'.pullRequests && a.1 in s'.users && a.1 != s'.pullRequests[a.0].authorId
    {
      if a !in s.assignments {
        assert a.0 == req.pullRequestId && a.1 in Elems(chosen);
        assert a.1 in Eligible(s, req.authorId);
      }
    }
  }

  lemma ReassignPreservesInv(s: Store, p: string, o: string, n: string)
    requires Inv(s) && Enabled(s, ReassignStep(p, o, n))
    ensures Inv(Apply(s, ReassignStep(p, o, n)))
  {
    ReassignSwaps(s, p, o, n);
  }

  /** Every successful transition keeps the integrity invariant. */
  lemma StepPreservesInv(s: Store, step: Step)
    requires Inv(s) && Enabled(s, step)
    ensures Inv(Apply(s, step))
  {
    match step
    case CreateTeamStep(team) => CreateTeamPreservesInv(s, team);
    case SetActiveStep(u, active) =>
      assert forall p :: ReviewersOf(Apply(s, step), p) == ReviewersOf(s, p);
    case CreatePrStep(req, chosen, now) => CreatePrPreservesInv(s, req, chosen, now);
    case MergeStep(p, now) =>
      assert forall q :: ReviewersOf(Apply(s, step), q) == ReviewersOf(s, q);
    case ReassignStep(p, o, n) => ReassignPreservesInv(s, p, o, n);
  }

  /**
   * Every merged pull request of `s` is still in `s'`, with the same row
   * and the same reviewers.
   */
  predicate MergedFrozen(s: Store, s': Store)
  {
    forall p :: p in s.pullRequests && s.pullRequests[p].status == Merged ==>
      && p in s'.pullRequests
      && s'.pullRequests[p] == s.pullRequests[p]
      && ReviewersOf(s', p) == ReviewersOf(s, p)
  }

  /** MERGED is terminal: no transition touches a merged pull request. */
  lemma StepFreezesMerged(s: Store, step: Step)
    ensures MergedFrozen(s, Next(s, step))
  {
  }

  /** Any sequence of requests, successful or failing, keeps the invariant. */
  lemma {:induction false} RunPreservesInv(s: Store, steps: seq<Step>)
    requires Inv(s)
    ensures Inv(Run(s, steps))
    decreases |steps|
  {
    if steps != [] {
      if Enabled(s, steps[0]) {
        StepPreservesInv(s, steps[0]);
      }
      RunPreservesInv(Next(s, steps[0]), steps[1..]);
    }
  }

  /** Once merged, a pull request stays merged, unchanged, with the same reviewers, forever. */
  lemma {:induction false} RunFreezesMerged(s: Store, steps: seq<Step>)
    ensures MergedFrozen(s, Run(s, steps))
    decreases |steps|
  {
    if steps != [] {
      StepFreezesMerged(s, steps[0]);
      RunFreezesMerged(Next(s, steps[0]), steps[1..]);
    }
  }

  // ---------------------------------------------------------------------
  // Read projections

  function MemberView(s: Store, u: string): TeamMember
    requires u in s.users
  {
    TeamMember(u, s.users[u].username, s.users[u].isActive)
  }

  /** The members whose team is `name`. */
  function TeamMembers(s: Store, name: string): set<TeamMember>
  {
    set u | u in s.users && s.users[u].teamName == name :: MemberView(s, u)
  }

  function ShortView(s: Store, p: string): PullRequestShort
    requires p in s.pullRequests
  {
    PullRequestShort(p, s.pullRequests[p].name, s.pullRequests[p].authorId, s.pullRequests[p].status)
  }

  /** The pull requests `userId` is assigned to review. */
  function ReviewQueue(s: Store, userId: string): set<PullRequestShort>
  {
    set a | a in s.assignments && a.1 == userId && a.0 in s.pullRequests :: ShortView(s, a.0)
  }

  /** `v` shows pull request `v.pullRequestId` of `s` as stored, with its reviewers each once. */
  predicate Describes(s: Store, v: PullRequest)
  {
    && v.pullRequestId in s.pullRequests
    && var row := s.pullRequests[v.pullRequestId];
    && v.pullRequestName == row.name
    && v.authorId == row.authorId
    && v.status == row.status
    && v.createdAt == row.createdAt
    && v.mergedAt == row.mergedAt
    && Distinct(v.assignedReviewers)
    && Elems(v.assignedReviewers) == ReviewersOf(s, v.pullRequestId)
  }
}
