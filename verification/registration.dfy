/**
  The store-changing part of the registration commands. Each takes field
  values that have already been read and trimmed, and returns the next store
  together with the new record's id or the reason the write was refused. A
  refused write leaves the store as it was.
 */
module Registration {
  import opened Wrappers
  import opened Collections
  import opened Store

  datatype Error =
    | MissingField(field: string)
    | DuplicateKey(field: string)
    | MissingReference(collection: string, id: int)
    | NoUsers
    | NoUserTeams
    | NoPlayers

  datatype Step = Step(store: Store, outcome: Result<int, Error>)

  /** An optional field left blank is stored as null. */
  function Optional(text: string): (r: Option<string>)
    ensures r.None? <==> |text| == 0
    ensures r.Some? ==> r.value == text
  {
    if |text| == 0 then None else Some(text)
  }

  /** ASCII upper-casing of one character. */
  function UpperChar(c: char): (r: char)
    ensures !('a' <= r <= 'z')
    ensures !('a' <= c <= 'z') ==> r == c
    ensures 'a' <= c <= 'z' ==> r as int == c as int - 32
  {
    if 'a' <= c <= 'z' then (c as int - 32) as char else c
  }

  /** The team code as stored: upper-cased, same length. */
  function Upper(text: string): (r: string)
    ensures |r| == |text|
    ensures forall i :: 0 <= i < |r| ==> r[i] == UpperChar(text[i])
  {
    seq(|text|, i requires 0 <= i < |text| => UpperChar(text[i]))
  }

  /** Registers a user; a used email is refused by the unique index. */
  function RegisterUser(
    s: Store, name: string, email: string, password: string, sex: Sex,
    phone: string, birthDate: string, preferredTeam: string): (r: Step)
    ensures r.outcome.Failure? ==> r.store == s
    ensures Valid(s) ==> Valid(r.store)
    ensures r.outcome.Success? <==>
      |name| > 0 && |email| > 0 && |password| > 0 && !HasKey(s.users, UserEmail, email)
    ensures |name| > 0 && |email| > 0 && |password| > 0 && HasKey(s.users, UserEmail, email) ==>
      r.outcome == Failure(DuplicateKey("email"))
    ensures r.outcome.Success? ==>
      && !HasKey(s.users, UserId, r.outcome.value)
      && r.store == s.(users := s.users + [User(r.outcome.value, name, email, password, sex,
                                                Optional(phone), birthDate, Optional(preferredTeam))])
  {
    if |name| == 0 then Step(s, Failure(MissingField("nome")))
    else if |email| == 0 then Step(s, Failure(MissingField("email")))
    else if |password| == 0 then Step(s, Failure(MissingField("senha")))
    else if HasKey(s.users, UserEmail, email) then Step(s, Failure(DuplicateKey("email")))
    else
      var id := NextId(Keys(s.users, UserId));
      var u := User(id, name, email, password, sex, Optional(phone), birthDate, Optional(preferredTeam));
      Step(s.(users := s.users + [u]), Success(id))
  }

  /** Registers an official team under its upper-cased code; a used code is refused. */
  function RegisterOfficialTeam(s: Store, name: string, code: string): (r: Step)
    ensures r.outcome.Failure? ==> r.store == s
    ensures Valid(s) ==> Valid(r.store)
    ensures r.outcome.Success? <==>
      |name| > 0 && |code| > 0 && !HasKey(s.teams, TeamCode, Upper(code))
    ensures |name| > 0 && |code| > 0 && HasKey(s.teams, TeamCode, Upper(code)) ==>
      r.outcome == Failure(DuplicateKey("sigla"))
    ensures r.outcome.Success? ==>
      && !HasKey(s.teams, TeamId, r.outcome.value)
      && r.store == s.(teams := s.teams + [OfficialTeam(r.outcome.value, name, Upper(code), None)])
  {
    var upper := Upper(code);
    if |name| == 0 then Step(s, Failure(MissingField("nome")))
    else if |upper| == 0 then Step(s, Failure(MissingField("sigla")))
    else if HasKey(s.teams, TeamCode, upper) then Step(s, Failure(DuplicateKey("sigla")))
    else
      var id := NextId(Keys(s.teams, TeamId));
      Step(s.(teams := s.teams + [OfficialTeam(id, name, upper, None)]), Success(id))
  }

  /**
    Registers a player. The team reference is stored as given: nothing checks
    that an official team with that id exists.
   */
  function RegisterPlayer(s: Store, name: string, position: string, teamId: Option<int>): (r: Step)
    ensures r.outcome.Failure? ==> r.store == s
    ensures Valid(s) ==> Valid(r.store)
    ensures r.outcome.Success? <==> |name| > 0 && |position| > 0
    ensures r.outcome.Success? ==>
      && !HasKey(s.players, PlayerId, r.outcome.value)
      && r.store == s.(players := s.players + [Player(r.outcome.value, name, position, teamId)])
  {
    if |name| == 0 then Step(s, Failure(MissingField("nome")))
    else if |position| == 0 then Step(s, Failure(MissingField("posicao")))
    else
      var id := NextId(Keys(s.players, PlayerId));
      Step(s.(players := s.players + [Player(id, name, position, teamId)]), Success(id))
  }

  /** Creates a user team, refused when no user has the given owner id. */
  function CreateUserTeam(s: Store, ownerId: int, name: string): (r: Step)
    ensures r.outcome.Failure? ==> r.store == s
    ensures Valid(s) ==> Valid(r.store)
    ensures r.outcome.Success? <==> |name| > 0 && HasKey(s.users, UserId, ownerId)
    ensures |s.users| == 0 ==> r.outcome == Failure(NoUsers)
    ensures |name| > 0 && !HasKey(s.users, UserId, ownerId) ==>
      r.outcome.Failure? && r.outcome.error in {NoUsers, MissingReference("usuario", ownerId)}
    ensures r.outcome.Success? ==>
      && !HasKey(s.userTeams, UserTeamId, r.outcome.value)
      && r.store == s.(userTeams := s.userTeams + [UserTeam(r.outcome.value, name, ownerId)])
  {
    if |s.users| == 0 then Step(s, Failure(NoUsers))
    else if |name| == 0 then Step(s, Failure(MissingField("nome")))
    else if !HasKey(s.users, UserId, ownerId) then Step(s, Failure(MissingReference("usuario", ownerId)))
    else
      var id := NextId(Keys(s.userTeams, UserTeamId));
      Step(s.(userTeams := s.userTeams + [UserTeam(id, name, ownerId)]), Success(id))
  }

  /**
    True when the listing of user teams shown before adding a player is not
    empty: that listing joins each user team to its owner and drops the teams
    whose owner is missing.
   */
  predicate HasListedUserTeam(s: Store)
  {
    exists i :: 0 <= i < |s.userTeams| && HasKey(s.users, UserId, s.userTeams[i].ownerId)
  }

  /**
    Adds a player to a user team, refused when the user team or the player
    does not exist or the player is already on that team.
   */
  function AddRosterEntry(s: Store, userTeamId: int, playerId: int): (r: Step)
    ensures r.outcome.Failure? ==> r.store == s
    ensures Valid(s) ==> Valid(r.store)
    ensures r.outcome.Success? <==>
      && HasListedUserTeam(s)
      && HasKey(s.userTeams, UserTeamId, userTeamId)
      && HasKey(s.players, PlayerId, playerId)
      && !HasKey(s.roster, EntryPair, (userTeamId, playerId))
    ensures HasListedUserTeam(s) && HasKey(s.userTeams, UserTeamId, userTeamId)
            && HasKey(s.players, PlayerId, playerId) && HasKey(s.roster, EntryPair, (userTeamId, playerId)) ==>
      r.outcome == Failure(DuplicateKey("time_usuario_jogador"))
    ensures r.outcome.Success? ==>
      && !HasKey(s.roster, EntryId, r.outcome.value)
      && r.store == s.(roster := s.roster + [RosterEntry(r.outcome.value, userTeamId, playerId)])
  {
    if !HasListedUserTeam(s) then Step(s, Failure(NoUserTeams))
    else if |s.players| == 0 then Step(s, Failure(NoPlayers))
    else if !HasKey(s.userTeams, UserTeamId, userTeamId) then
      Step(s, Failure(MissingReference("time_usuario", userTeamId)))
    else if !HasKey(s.players, PlayerId, playerId) then
      Step(s, Failure(MissingReference("jogador", playerId)))
    else if HasKey(s.roster, EntryPair, (userTeamId, playerId)) then
      Step(s, Failure(DuplicateKey("time_usuario_jogador")))
    else
      var id := NextId(Keys(s.roster, EntryId));
      Step(s.(roster := s.roster + [RosterEntry(id, userTeamId, playerId)]), Success(id))
  }

  /** The store after every collection has been dropped. */
  function EmptyStore(): (s: Store)
    ensures Valid(s) && ReferencesResolve(s)
    ensures NextId(Keys(s.users, UserId)) == 1 && NextId(Keys(s.teams, TeamId)) == 1
    ensures NextId(Keys(s.players, PlayerId)) == 1 && NextId(Keys(s.userTeams, UserTeamId)) == 1
    ensures NextId(Keys(s.roster, EntryId)) == 1
  {
    Store([], [], [], [], [])
  }

  /** Creating user teams and adding roster entries keep every checked reference resolvable. */
  lemma CreateUserTeamKeepsReferences(s: Store, ownerId: int, name: string)
    requires ReferencesResolve(s)
    ensures ReferencesResolve(CreateUserTeam(s, ownerId, name).store)
  {
    var r := CreateUserTeam(s, ownerId, name);
    if r.outcome.Success? {
      var t := r.store.userTeams[|s.userTeams|];
      forall i | 0 <= i < |s.roster|
        ensures HasKey(r.store.userTeams, UserTeamId, s.roster[i].userTeamId)
      {
        HasKeyAppend(s.userTeams, [t], UserTeamId, s.roster[i].userTeamId);
      }
    }
  }

  lemma AddRosterEntryKeepsReferences(s: Store, userTeamId: int, playerId: int)
    requires ReferencesResolve(s)
    ensures ReferencesResolve(AddRosterEntry(s, userTeamId, playerId).store)
  {
  }

  /** Registering a user or a player never breaks a checked reference. */
  lemma RegisterKeepsReferences(
    s: Store, name: string, email: string, password: string, sex: Sex,
    phone: string, birthDate: string, preferredTeam: string,
    code: string, position: string, teamId: Option<int>)
    requires ReferencesResolve(s)
    ensures ReferencesResolve(RegisterUser(s, name, email, password, sex, phone, birthDate, preferredTeam).store)
    ensures ReferencesResolve(RegisterPlayer(s, name, position, teamId).store)
    ensures ReferencesResolve(RegisterOfficialTeam(s, name, code).store)
  {
    var r := RegisterUser(s, name, email, password, sex, phone, birthDate, preferredTeam);
    if r.outcome.Success? {
      forall i | 0 <= i < |s.userTeams|
        ensures HasKey(r.store.users, UserId, s.userTeams[i].ownerId)
      {
        HasKeyAppend(s.users, [r.store.users[|s.users|]], UserId, s.userTeams[i].ownerId);
      }
    }
    var q := RegisterPlayer(s, name, position, teamId);
    if q.outcome.Success? {
      forall i | 0 <= i < |s.roster|
        ensures HasKey(q.store.players, PlayerId, s.roster[i].playerId)
      {
        HasKeyAppend(s.players, [q.store.players[|s.players|]], PlayerId, s.roster[i].playerId);
      }
    }
  }

  /**
    After a user registers, exactly one user has that email, and registering
    the same email again is refused and leaves the store unchanged.
   */
  lemma RegisterUserTwice(
    s: Store, name: string, email: string, password: string, sex: Sex,
    phone: string, birthDate: string, preferredTeam: string,
    name2: string, password2: string, sex2: Sex, phone2: string, birthDate2: string, preferredTeam2: string)
    requires Valid(s)
    requires RegisterUser(s, name, email, password, sex, phone, birthDate, preferredTeam).outcome.Success?
    requires |name2| > 0 && |password2| > 0
    ensures var s1 := RegisterUser(s, name, email, password, sex, phone, birthDate, preferredTeam).store;
      && |WithKey(s1.users, UserEmail, email)| == 1
      && RegisterUser(s1, name2, email, password2, sex2, phone2, birthDate2, preferredTeam2)
         == Step(s1, Failure(DuplicateKey("email")))
  {
    var s1 := RegisterUser(s, name, email, password, sex, phone, birthDate, preferredTeam).store;
    var u := s1.users[|s.users|];
    HasKeyAppend(s.users, [u], UserEmail, email);
    WithKeyUnique(s1.users, UserEmail, email);
  }

  /**
    Adding the same player to the same user team twice: the second call is
    refused and the pair is on the roster once.
   */
  lemma AddRosterEntryTwice(s: Store, userTeamId: int, playerId: int)
    requires Valid(s)
    requires AddRosterEntry(s, userTeamId, playerId).outcome.Success?
    ensures var s1 := AddRosterEntry(s, userTeamId, playerId).store;
      && AddRosterEntry(s1, userTeamId, playerId) == Step(s1, Failure(DuplicateKey("time_usuario_jogador")))
      && |WithKey(s1.roster, EntryPair, (userTeamId, playerId))| == 1
  {
    var s1 := AddRosterEntry(s, userTeamId, playerId).store;
    HasKeyAppend(s.roster, [s1.roster[|s.roster|]], EntryPair, (userTeamId, playerId));
    WithKeyUnique(s1.roster, EntryPair, (userTeamId, playerId));
  }

  /**
    A player may be registered with a team id that names no official team:
    the store then holds a reference that does not resolve.
   */
  lemma RegisterPlayerDanglingTeam()
    ensures var r := RegisterPlayer(EmptyStore(), "Jogador", "Goleiro", Some(7));
      && r.outcome == Success(1)
      && r.store.players[0].teamId == Some(7)
      && !HasKey(r.store.teams, TeamId, 7)
  {
  }
}
