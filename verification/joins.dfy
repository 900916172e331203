/**
  The four `$lookup`/`$unwind` pairs that open the preferred-team query:
  from a user to their user teams, to the roster entries of each, to the
  entry's player and to that player's official team. Each pair yields one
  row per matching document, so the result lists (user, official team)
  pairs, one per path through the collections.
 */
module Joins {
  import opened Wrappers
  import opened Collections
  import opened Store

  /** A row after the four joins: a user and the official team of one player on one of their teams. */
  datatype Candidate = Candidate(user: User, team: OfficialTeam)

  // ----- The joins -----

  function PlayerCandidates(s: Store, u: User, p: Player): seq<Candidate>
  {
    FlatMap(TeamsOf(s, p), (t: OfficialTeam) => [Candidate(u, t)])
  }

  function EntryCandidates(s: Store, u: User, e: RosterEntry): seq<Candidate>
  {
    FlatMap(PlayersOf(s, e), (p: Player) => PlayerCandidates(s, u, p))
  }

  function TeamCandidates(s: Store, u: User, t: UserTeam): seq<Candidate>
  {
    FlatMap(EntriesOf(s, t), (e: RosterEntry) => EntryCandidates(s, u, e))
  }

  function UserCandidates(s: Store, u: User): seq<Candidate>
  {
    FlatMap(UserTeamsOf(s, u), (t: UserTeam) => TeamCandidates(s, u, t))
  }

  /** The rows reaching the stage that picks the preferred team, in store order. */
  function Candidates(s: Store): seq<Candidate>
  {
    FlatMap(s.users, (u: User) => UserCandidates(s, u))
  }

  /**
    User `u` owns a user team whose roster holds a player of official team
    `ot`, stated directly over the collections.
   */
  ghost predicate Reaches(s: Store, u: User, ot: OfficialTeam)
  {
    && ot in s.teams
    && exists t, e, p :: t in s.userTeams && e in s.roster && p in s.players &&
         t.ownerId == u.id && e.userTeamId == t.id && e.playerId == p.id && p.teamId == Some(ot.id)
  }

  lemma PlayerCandidatesMember(s: Store, u: User, p: Player, c: Candidate)
    ensures c in PlayerCandidates(s, u, p) <==> c.user == u && c.team in s.teams && p.teamId == Some(c.team.id)
  {
    FlatMapMember(TeamsOf(s, p), (t: OfficialTeam) => [Candidate(u, t)], c);
  }

  lemma EntryCandidatesMember(s: Store, u: User, e: RosterEntry, c: Candidate)
    ensures c in EntryCandidates(s, u, e) <==>
      && c.user == u && c.team in s.teams
      && exists p :: p in s.players && e.playerId == p.id && p.teamId == Some(c.team.id)
  {
    FlatMapMember(PlayersOf(s, e), (p: Player) => PlayerCandidates(s, u, p), c);
    forall p: Player {
      PlayerCandidatesMember(s, u, p, c);
    }
  }

  lemma TeamCandidatesMember(s: Store, u: User, t: UserTeam, c: Candidate)
    ensures c in TeamCandidates(s, u, t) <==>
      && c.user == u && c.team in s.teams
      && exists e, p :: e in s.roster && p in s.players &&
           e.userTeamId == t.id && e.playerId == p.id && p.teamId == Some(c.team.id)
  {
    FlatMapMember(EntriesOf(s, t), (e: RosterEntry) => EntryCandidates(s, u, e), c);
    forall e: RosterEntry {
      EntryCandidatesMember(s, u, e, c);
    }
  }

  lemma UserCandidatesMember(s: Store, u: User, c: Candidate)
    ensures c in UserCandidates(s, u) <==> c.user == u && Reaches(s, u, c.team)
  {
    FlatMapMember(UserTeamsOf(s, u), (t: UserTeam) => TeamCandidates(s, u, t), c);
    forall t: UserTeam {
      TeamCandidatesMember(s, u, t, c);
    }
  }

  /** Under unique team ids, a player contributes exactly the team its `time_id` names. */
  lemma PlayerCandidatesOf(s: Store, u: User, p: Player, j: nat)
    requires Injective(s.teams, TeamId) && j < |s.teams| && p.teamId == Some(s.teams[j].id)
    ensures PlayerCandidates(s, u, p) == [Candidate(u, s.teams[j])]
  {
    WithKeyOne(s.teams, TeamId, j);
    FlatMapOne(s.teams[j], (t: OfficialTeam) => [Candidate(u, t)]);
  }

  /** Under unique player ids, a roster entry contributes exactly what its player does. */
  lemma EntryCandidatesOf(s: Store, u: User, e: RosterEntry, j: nat)
    requires Injective(s.players, PlayerId) && j < |s.players| && e.playerId == s.players[j].id
    ensures EntryCandidates(s, u, e) == PlayerCandidates(s, u, s.players[j])
  {
    WithKeyOne(s.players, PlayerId, j);
    FlatMapOne(s.players[j], (p: Player) => PlayerCandidates(s, u, p));
  }

  /** The joins yield exactly the (user, official team) pairs linked through a roster. */
  lemma CandidatesMember(s: Store, c: Candidate)
    ensures c in Candidates(s) <==> c.user in s.users && Reaches(s, c.user, c.team)
  {
    FlatMapMember(s.users, (u: User) => UserCandidates(s, u), c);
    forall u: User {
      UserCandidatesMember(s, u, c);
    }
  }

  // ----- Counting by roster entry -----

  /**
    The pair one roster entry contributes, resolved directly: the owner of
    its user team and the official team of its player, when the user team,
    the owner, the player and the player's team all exist.
   */
  function EntryCandidate(s: Store, e: RosterEntry): Option<Candidate>
  {
    var t := Find(s.userTeams, UserTeamId, e.userTeamId);
    var p := Find(s.players, PlayerId, e.playerId);
    if t.None? || p.None? then None
    else
      var u := Find(s.users, UserId, t.value.ownerId);
      var ot := TeamOf(s, p.value);
      if u.None? || ot.None? then None else Some(Candidate(u.value, ot.value))
  }

  /** The weight `w` of the pair an entry contributes, 0 when it contributes none. */
  function EntryWeight(s: Store, w: Candidate -> int, e: RosterEntry): int
  {
    match EntryCandidate(s, e)
    case None => 0
    case Some(c) => w(c)
  }

  /** The weight a user team contributes under its owner, 0 when the owner is missing. */
  function OwnedTeamWeight(s: Store, w: Candidate -> int, t: UserTeam): int
  {
    match Find(s.users, UserId, t.ownerId)
    case None => 0
    case Some(u) => SumOf(TeamCandidates(s, u, t), w)
  }

  /** The weight entry `e` contributes through user team `t`'s owner. */
  function OwnedEntryWeight(s: Store, w: Candidate -> int, t: UserTeam, e: RosterEntry): int
  {
    match Find(s.users, UserId, t.ownerId)
    case None => 0
    case Some(u) => SumOf(EntryCandidates(s, u, e), w)
  }

  /** Under unique player and team ids, an entry's rows for user `u` are one pair at most. */
  lemma EntryCandidatesWeight(s: Store, w: Candidate -> int, u: User, e: RosterEntry)
    requires Injective(s.players, PlayerId) && Injective(s.teams, TeamId)
    ensures SumOf(EntryCandidates(s, u, e), w) ==
      var p := Find(s.players, PlayerId, e.playerId);
      if p.Some? && TeamOf(s, p.value).Some? then w(Candidate(u, TeamOf(s, p.value).value)) else 0
  {
    var p := Find(s.players, PlayerId, e.playerId);
    if p.Some? {
      var j :| 0 <= j < |s.players| && s.players[j] == p.value;
      EntryCandidatesOf(s, u, e, j);
      var ot := TeamOf(s, p.value);
      if ot.Some? {
        var i :| 0 <= i < |s.teams| && s.teams[i] == ot.value;
        PlayerCandidatesOf(s, u, p.value, i);
        assert [Candidate(u, ot.value)][1..] == [];
      } else {
        TeamsOfResolved(s, p.value);
      }
    } else {
      WithKeyEmpty(s.players, PlayerId, e.playerId);
    }
  }

  /** A user team's rows add up, over the whole roster, the rows of the entries that name it. */
  lemma TeamWeightByRoster(s: Store, w: Candidate -> int, u: User, t: UserTeam, g: RosterEntry -> int)
    requires forall e :: g(e) == if e.userTeamId == t.id then SumOf(EntryCandidates(s, u, e), w) else 0
    ensures SumOf(TeamCandidates(s, u, t), w) == SumOf(s.roster, g)
  {
    var h := (e: RosterEntry) => SumOf(EntryCandidates(s, u, e), w);
    SumOfFlatMap(EntriesOf(s, t), (e: RosterEntry) => EntryCandidates(s, u, e), w, h);
    SumOfWithKey(s.roster, EntryUserTeam, t.id, h, g);
  }

  /** Under unique user ids, the joined rows add up user team by user team. */
  lemma CandidatesByTeam(s: Store, w: Candidate -> int, c: UserTeam -> int)
    requires Injective(s.users, UserId)
    requires forall t :: c(t) == OwnedTeamWeight(s, w, t)
    ensures SumOf(Candidates(s), w) == SumOf(s.userTeams, c)
  {
    var g := (u: User, t: UserTeam) => if t.ownerId == u.id then SumOf(TeamCandidates(s, u, t), w) else 0;
    var r := (u: User) => SumOf(UserCandidates(s, u), w);
    SumOfFlatMap(s.users, (u: User) => UserCandidates(s, u), w, r);
    forall u: User ensures r(u) == RowSum(u, s.userTeams, g) {
      var h := (t: UserTeam) => SumOf(TeamCandidates(s, u, t), w);
      SumOfFlatMap(UserTeamsOf(s, u), (t: UserTeam) => TeamCandidates(s, u, t), w, h);
      SumOfWithKey(s.userTeams, UserTeamOwner, u.id, h, (t: UserTeam) => g(u, t));
      RowSumIs(u, s.userTeams, g, (t: UserTeam) => g(u, t));
    }
    forall t: UserTeam ensures c(t) == ColSum(s.users, t, g) {
      ColSumIs(s.users, t, g, (u: User) => g(u, t));
      SumOfUnique(s.users, UserId, t.ownerId, (u: User) => g(u, t));
    }
    SumOfSwap(s.users, s.userTeams, g, r, c);
  }

  /** Under unique ids, the user teams' weights add up entry by entry. */
  lemma TeamsByEntry(s: Store, w: Candidate -> int, c: UserTeam -> int, h: RosterEntry -> int)
    requires Injective(s.userTeams, UserTeamId) && Injective(s.players, PlayerId) && Injective(s.teams, TeamId)
    requires forall t :: c(t) == OwnedTeamWeight(s, w, t)
    requires forall e :: h(e) == EntryWeight(s, w, e)
    ensures SumOf(s.userTeams, c) == SumOf(s.roster, h)
  {
    var g := (t: UserTeam, e: RosterEntry) => if e.userTeamId == t.id then OwnedEntryWeight(s, w, t, e) else 0;
    forall t: UserTeam ensures c(t) == RowSum(t, s.roster, g) {
      RowSumIs(t, s.roster, g, (e: RosterEntry) => g(t, e));
      match Find(s.users, UserId, t.ownerId)
      case None =>
        SumOfZero(s.roster, (e: RosterEntry) => g(t, e));
      case Some(u) =>
        TeamWeightByRoster(s, w, u, t, (e: RosterEntry) => g(t, e));
    }
    forall e: RosterEntry ensures h(e) == ColSum(s.userTeams, e, g) {
      ColSumIs(s.userTeams, e, g, (t: UserTeam) => g(t, e));
      SumOfUnique(s.userTeams, UserTeamId, e.userTeamId, (t: UserTeam) => g(t, e));
      var t := Find(s.userTeams, UserTeamId, e.userTeamId);
      if t.Some? {
        var u := Find(s.users, UserId, t.value.ownerId);
        if u.Some? {
          EntryCandidatesWeight(s, w, u.value, e);
        }
      }
    }
    SumOfSwap(s.userTeams, s.roster, g, c, h);
  }

  /**
    Under the store's unique indexes, a sum over the rows of the four joins
    is the sum over the roster entries of the pair each one resolves to:
    each entry yields one row at most, under its user team's owner.
   */
  lemma CandidatesByEntry(s: Store, w: Candidate -> int, h: RosterEntry -> int)
    requires Valid(s)
    requires forall e :: h(e) == EntryWeight(s, w, e)
    ensures SumOf(Candidates(s), w) == SumOf(s.roster, h)
  {
    var c := (t: UserTeam) => OwnedTeamWeight(s, w, t);
    CandidatesByTeam(s, w, c);
    TeamsByEntry(s, w, c, h);
  }
}
