/**
  The five collections of the football application and the unique indexes
  declared on them.

  Every record carries an integer `_id`, unique in its collection. A
  player's `time_id` and a user's `time_preferido` may be null, and so may
  an official team's `nome_curto`, which only the seed data sets.
 */
module Store {
  import opened Wrappers
  import opened Collections

  datatype Sex = M | F | O

  /** A `usuario` document. */
  datatype User = User(
    id: int,
    name: string,
    email: string,
    password: string,
    sex: Sex,
    phone: Option<string>,
    birthDate: string,
    preferredTeam: Option<string>)

  /** A `time_oficial` document: `sigla` is `code`, `nome_curto` is `shortName`. */
  datatype OfficialTeam = OfficialTeam(id: int, name: string, code: string, shortName: Option<string>)

  /** A `jogador` document; `teamId` is null for a free agent. */
  datatype Player = Player(id: int, name: string, position: string, teamId: Option<int>)

  /** A `time_usuario` document: a fantasy team owned by a user. */
  datatype UserTeam = UserTeam(id: int, name: string, ownerId: int)

  /** A `time_usuario_jogador` document: one player on one user team. */
  datatype RosterEntry = RosterEntry(id: int, userTeamId: int, playerId: int)

  /** The whole database, each collection in natural (insertion) order. */
  datatype Store = Store(
    users: seq<User>,
    teams: seq<OfficialTeam>,
    players: seq<Player>,
    userTeams: seq<UserTeam>,
    roster: seq<RosterEntry>)

  function UserId(u: User): int { u.id }
  function UserEmail(u: User): string { u.email }
  function TeamId(t: OfficialTeam): int { t.id }
  function TeamCode(t: OfficialTeam): string { t.code }
  function TeamShortName(t: OfficialTeam): Option<string> { t.shortName }
  function PlayerId(p: Player): int { p.id }
  function UserTeamId(t: UserTeam): int { t.id }
  function UserTeamOwner(t: UserTeam): int { t.ownerId }
  function EntryId(e: RosterEntry): int { e.id }
  function EntryUserTeam(e: RosterEntry): int { e.userTeamId }
  function EntryPair(e: RosterEntry): (int, int) { (e.userTeamId, e.playerId) }

  /**
    The indexes the store enforces: `_id` in every collection, and the
    unique indexes on `usuario.email`, `time_oficial.sigla` and the pair
    (`time_usuario_id`, `jogador_id`) of `time_usuario_jogador`.
   */
  predicate Valid(s: Store)
  {
    && Injective(s.users, UserId)
    && Injective(s.users, UserEmail)
    && Injective(s.teams, TeamId)
    && Injective(s.teams, TeamCode)
    && Injective(s.players, PlayerId)
    && Injective(s.userTeams, UserTeamId)
    && Injective(s.roster, EntryId)
    && Injective(s.roster, EntryPair)
  }

  /**
    The references the application checks before a write: a user team's
    owner exists, and a roster entry's user team and player exist. A
    player's official team is not among them.
   */
  predicate ReferencesResolve(s: Store)
  {
    && (forall i :: 0 <= i < |s.userTeams| ==> HasKey(s.users, UserId, s.userTeams[i].ownerId))
    && (forall i :: 0 <= i < |s.roster| ==> HasKey(s.userTeams, UserTeamId, s.roster[i].userTeamId))
    && (forall i :: 0 <= i < |s.roster| ==> HasKey(s.players, PlayerId, s.roster[i].playerId))
  }

  // The `$lookup` stages of the pipelines: each attaches the matching
  // documents of another collection. A null local field matches nothing.

  /** `jogador.time_id` joined to `time_oficial._id`. */
  function TeamsOf(s: Store, p: Player): seq<OfficialTeam>
  {
    match p.teamId
    case None => []
    case Some(id) => WithKey(s.teams, TeamId, id)
  }

  /** `time_usuario.usuario_id` joined to `usuario._id`. */
  function OwnersOf(s: Store, t: UserTeam): seq<User>
  {
    WithKey(s.users, UserId, t.ownerId)
  }

  /** `time_usuario._id` joined to `time_usuario_jogador.time_usuario_id`. */
  function EntriesOf(s: Store, t: UserTeam): seq<RosterEntry>
  {
    WithKey(s.roster, EntryUserTeam, t.id)
  }

  /** `time_usuario_jogador.jogador_id` joined to `jogador._id`. */
  function PlayersOf(s: Store, e: RosterEntry): seq<Player>
  {
    WithKey(s.players, PlayerId, e.playerId)
  }

  /** `usuario._id` joined to `time_usuario.usuario_id`. */
  function UserTeamsOf(s: Store, u: User): seq<UserTeam>
  {
    WithKey(s.userTeams, UserTeamOwner, u.id)
  }

  /** `usuario.time_preferido` joined to `time_oficial.nome_curto`. */
  function TeamsNamed(s: Store, preferred: Option<string>): seq<OfficialTeam>
  {
    match preferred
    case None => []
    case Some(_) => WithKey(s.teams, TeamShortName, preferred)
  }

  /** The official team a player's `time_id` resolves to, if any. */
  function TeamOf(s: Store, p: Player): (r: Option<OfficialTeam>)
    ensures r.None? <==> p.teamId.None? || !HasKey(s.teams, TeamId, p.teamId.value)
    ensures r.Some? ==> r.value in s.teams && Some(r.value.id) == p.teamId
  {
    match p.teamId
    case None => None
    case Some(id) => Find(s.teams, TeamId, id)
  }

  /** Under unique team ids, the player-to-team lookup yields exactly `TeamOf`'s answer. */
  lemma TeamsOfResolved(s: Store, p: Player)
    requires Injective(s.teams, TeamId)
    ensures TeamsOf(s, p) == if TeamOf(s, p).Some? then [TeamOf(s, p).value] else []
  {
    if p.teamId.Some? {
      WithKeyUnique(s.teams, TeamId, p.teamId.value);
    }
  }
}
