/**
  The test data that the setup script and the shell script insert, and what
  the reports return on it.
 */
module Seed {
  import opened Wrappers
  import opened Collections
  import opened Store
  import opened Reports
  import opened Joins
  import opened Preferred
  import opened Grouping

  const SeedUsers: seq<User> := [
    User(1, "Eduardo Fontes", "edu@example.com", "hash_senha", M, Some("77-99122-9637"), "2000-08-25", Some("FURIA")),
    User(2, "Larissa", "lari@example.com", "hash", F, None, "2001-03-10", Some("LOUD"))]

  const SeedTeams: seq<OfficialTeam> := [
    OfficialTeam(1, "Furia Esports", "FUR", Some("FURIA")),
    OfficialTeam(2, "LOUD", "LOD", Some("LOUD"))]

  const SeedPlayers: seq<Player> := [
    Player(1, "Jogador A", "Atacante", Some(1)),
    Player(2, "Jogador B", "Meio-campo", Some(1)),
    Player(3, "Jogador C", "Defensor", Some(2)),
    Player(4, "Jogador D", "Goleiro", None)]

  const SeedUserTeams: seq<UserTeam> := [UserTeam(1, "Time do Edu", 1), UserTeam(2, "Time da Lari", 2)]

  const SeedRoster: seq<RosterEntry> := [
    RosterEntry(1, 1, 1), RosterEntry(2, 1, 2), RosterEntry(3, 1, 4), RosterEntry(4, 2, 2), RosterEntry(5, 2, 3)]

  /** Two users, the FURIA and LOUD official teams, four players (one free), two user teams, five roster entries. */
  function SeedStore(): Store
  {
    Store(SeedUsers, SeedTeams, SeedPlayers, SeedUserTeams, SeedRoster)
  }

  lemma SeedUnique()
    ensures Valid(SeedStore())
  {
    var us, ts, ps, uts, r := SeedUsers, SeedTeams, SeedPlayers, SeedUserTeams, SeedRoster;
    assert Injective(us, UserId) by {
      assert UserId(us[0]) == 1 && UserId(us[1]) == 2;
    }
    assert Injective(us, UserEmail) by {
      assert UserEmail(us[0])[0] == 'e' && UserEmail(us[1])[0] == 'l';
    }
    assert Injective(ts, TeamId) by {
      assert TeamId(ts[0]) == 1 && TeamId(ts[1]) == 2;
    }
    assert Injective(ts, TeamCode) by {
      assert TeamCode(ts[0])[0] == 'F' && TeamCode(ts[1])[0] == 'L';
    }
    assert Injective(ps, PlayerId) by {
      assert PlayerId(ps[0]) == 1 && PlayerId(ps[1]) == 2 && PlayerId(ps[2]) == 3 && PlayerId(ps[3]) == 4;
    }
    assert Injective(uts, UserTeamId) by {
      assert UserTeamId(uts[0]) == 1 && UserTeamId(uts[1]) == 2;
    }
    assert Injective(r, EntryId) by {
      assert forall i :: 0 <= i < 5 ==> EntryId(r[i]) == i + 1;
    }
    assert Injective(r, EntryPair);
  }

  lemma SeedReferences()
    ensures ReferencesResolve(SeedStore())
  {
    var us, ps, uts, r := SeedUsers, SeedPlayers, SeedUserTeams, SeedRoster;
    assert UserId(us[0]) == 1 && UserId(us[1]) == 2;
    assert UserTeamId(uts[0]) == 1 && UserTeamId(uts[1]) == 2;
    assert PlayerId(ps[0]) == 1 && PlayerId(ps[1]) == 2 && PlayerId(ps[2]) == 3 && PlayerId(ps[3]) == 4;
  }

  /** The seed data satisfies the unique indexes and every reference resolves. */
  lemma SeedValid()
    ensures Valid(SeedStore()) && ReferencesResolve(SeedStore())
  {
    SeedUnique();
    SeedReferences();
  }

  /** Only "Jogador D" has a null `time_id`. */
  lemma SeedFreeAgents()
    ensures FreeAgents(SeedStore()) == [FreeAgentRow(4, "Jogador D", "Goleiro")]
  {
  }

  // The Q5 computation below is carried out for any store with the seed's
  // ids, references, codes and labels, whatever its names.

  /** The ids, references, `sigla`s, `nome_curto`s and labels of the seed data. */
  predicate SeedShape(s: Store)
  {
    && |s.users| == 2 && s.users[0].id == 1 && s.users[1].id == 2
    && s.users[0].preferredTeam == Some("FURIA") && s.users[1].preferredTeam == Some("LOUD")
    && |s.teams| == 2 && s.teams[0].id == 1 && s.teams[1].id == 2
    && s.teams[0].code == "FUR" && s.teams[1].code == "LOD"
    && s.teams[0].shortName == Some("FURIA") && s.teams[1].shortName == Some("LOUD")
    && |s.players| == 4
    && s.players[0].id == 1 && s.players[1].id == 2 && s.players[2].id == 3 && s.players[3].id == 4
    && s.players[0].teamId == Some(1) && s.players[1].teamId == Some(1)
    && s.players[2].teamId == Some(2) && s.players[3].teamId == None
    && |s.userTeams| == 2
    && s.userTeams[0].id == 1 && s.userTeams[0].ownerId == 1
    && s.userTeams[1].id == 2 && s.userTeams[1].ownerId == 2
    && s.roster == SeedRoster
  }

  lemma SeedHasShape()
    ensures SeedShape(SeedStore())
  {
  }

  lemma ShapeOwnedTeams(s: Store)
    requires SeedShape(s)
    ensures UserTeamsOf(s, s.users[0]) == [s.userTeams[0]] && UserTeamsOf(s, s.users[1]) == [s.userTeams[1]]
  {
    assert s.userTeams == [s.userTeams[0], s.userTeams[1]];
    WithKeyPair(s.userTeams[0], s.userTeams[1], UserTeamOwner, 1);
    WithKeyPair(s.userTeams[0], s.userTeams[1], UserTeamOwner, 2);
  }

  lemma RosterOfFirstTeam()
    ensures WithKey(SeedRoster, EntryUserTeam, 1) == SeedRoster[..3]
  {
    var r := SeedRoster;
    assert r == r[..3] + r[3..];
    WithKeyAll(r[..3], EntryUserTeam, 1);
    WithKeyNone(r[3..], EntryUserTeam, 1);
    WithKeyAppend(r[..3], r[3..], EntryUserTeam, 1);
  }

  lemma RosterOfSecondTeam()
    ensures WithKey(SeedRoster, EntryUserTeam, 2) == SeedRoster[3..]
  {
    var r := SeedRoster;
    assert r == r[..3] + r[3..];
    WithKeyNone(r[..3], EntryUserTeam, 2);
    WithKeyAll(r[3..], EntryUserTeam, 2);
    WithKeyAppend(r[..3], r[3..], EntryUserTeam, 2);
  }

  lemma ShapeEntries(s: Store)
    requires SeedShape(s)
    ensures EntriesOf(s, s.userTeams[0]) == s.roster[..3] && EntriesOf(s, s.userTeams[1]) == s.roster[3..]
  {
    RosterOfFirstTeam();
    RosterOfSecondTeam();
  }

  lemma ShapeEntryCandidates(s: Store, u: User)
    requires SeedShape(s)
    ensures && EntryCandidates(s, u, s.roster[0]) == [Candidate(u, s.teams[0])]
            && EntryCandidates(s, u, s.roster[1]) == [Candidate(u, s.teams[0])]
            && EntryCandidates(s, u, s.roster[2]) == []
            && EntryCandidates(s, u, s.roster[3]) == [Candidate(u, s.teams[0])]
            && EntryCandidates(s, u, s.roster[4]) == [Candidate(u, s.teams[1])]
  {
    var ps, ts := s.players, s.teams;
    assert Injective(ps, PlayerId) by {
      assert PlayerId(ps[0]) == 1 && PlayerId(ps[1]) == 2 && PlayerId(ps[2]) == 3 && PlayerId(ps[3]) == 4;
    }
    assert Injective(ts, TeamId) by {
      assert TeamId(ts[0]) == 1 && TeamId(ts[1]) == 2;
    }
    PlayerCandidatesOf(s, u, ps[0], 0);
    PlayerCandidatesOf(s, u, ps[1], 0);
    PlayerCandidatesOf(s, u, ps[2], 1);
    assert PlayerCandidates(s, u, ps[3]) == [];
    EntryCandidatesOf(s, u, s.roster[0], 0);
    EntryCandidatesOf(s, u, s.roster[1], 1);
    EntryCandidatesOf(s, u, s.roster[2], 3);
    EntryCandidatesOf(s, u, s.roster[3], 1);
    EntryCandidatesOf(s, u, s.roster[4], 2);
  }

  lemma ShapeFirstTeam(s: Store)
    requires SeedShape(s)
    ensures var c0 := Candidate(s.users[0], s.teams[0]);
      TeamCandidates(s, s.users[0], s.userTeams[0]) == [c0, c0]
  {
    var u := s.users[0];
    var r := s.roster;
    var ec := (e: RosterEntry) => EntryCandidates(s, u, e);
    assert r[..3] == [r[0]] + [r[1]] + [r[2]];
    ShapeEntries(s);
    assert TeamCandidates(s, u, s.userTeams[0]) == FlatMap([r[0]] + [r[1]] + [r[2]], ec);
    FlatMapAppend([r[0]] + [r[1]], [r[2]], ec);
    FlatMapAppend([r[0]], [r[1]], ec);
    FlatMapOne(r[0], ec);
    FlatMapOne(r[1], ec);
    FlatMapOne(r[2], ec);
    ShapeEntryCandidates(s, u);
    Twice(Candidate(u, s.teams[0]));
  }

  /** A literal fact about sequences, kept apart so it is proved without the store in context. */
  lemma Twice<T>(x: T)
    ensures [x] + [x] + [] == [x, x]
  {
  }

  lemma ShapeSecondTeam(s: Store)
    requires SeedShape(s)
    ensures TeamCandidates(s, s.users[1], s.userTeams[1]) ==
      [Candidate(s.users[1], s.teams[0]), Candidate(s.users[1], s.teams[1])]
  {
    var u := s.users[1];
    var r := s.roster;
    var ec := (e: RosterEntry) => EntryCandidates(s, u, e);
    assert r[3..] == [r[3]] + [r[4]];
    ShapeEntries(s);
    assert TeamCandidates(s, u, s.userTeams[1]) == FlatMap([r[3]] + [r[4]], ec);
    FlatMapAppend([r[3]], [r[4]], ec);
    FlatMapOne(r[3], ec);
    FlatMapOne(r[4], ec);
    ShapeEntryCandidates(s, u);
    Pair(Candidate(u, s.teams[0]), Candidate(u, s.teams[1]));
  }

  /** A literal fact about sequences, kept apart so it is proved without the store in context. */
  lemma Pair<T>(x: T, y: T)
    ensures [x] + [y] == [x, y]
  {
  }

  /** The rows after the four joins: the free player drops out. */
  lemma ShapeCandidates(s: Store)
    requires SeedShape(s)
    ensures Candidates(s) == [
      Candidate(s.users[0], s.teams[0]), Candidate(s.users[0], s.teams[0]),
      Candidate(s.users[1], s.teams[0]), Candidate(s.users[1], s.teams[1])]
  {
    var u1, u2 := s.users[0], s.users[1];
    var uc := (u: User) => UserCandidates(s, u);
    assert s.users == [u1] + [u2];
    FlatMapAppend([u1], [u2], uc);
    FlatMapOne(u1, uc);
    FlatMapOne(u2, uc);
    ShapeOwnedTeams(s);
    FlatMapOne(s.userTeams[0], (t: UserTeam) => TeamCandidates(s, u1, t));
    FlatMapOne(s.userTeams[1], (t: UserTeam) => TeamCandidates(s, u2, t));
    ShapeFirstTeam(s);
    ShapeSecondTeam(s);
  }

  lemma GroupOfThree<K(!new)>(a: K, b: K)
    requires a != b
    ensures GroupCount([a, a, b]) == [Group(a, 2), Group(b, 1)]
  {
    assert [a, a, b][..2] == [a, a] && [a, a][..1] == [a] && [a][..0] == [];
    assert GroupCount([a]) == [Group(a, 1)];
    assert GroupCount([a, a]) == [Group(a, 2)];
    assert [Group(a, 2)][1..] == [];
    assert Bump([Group(a, 2)], b) == [Group(a, 2)] + Bump([], b);
  }

  lemma AppKeysOfFour(c0: Candidate, c1: Candidate, c2: Candidate)
    requires AppKeeps(c0) && !AppKeeps(c1) && AppKeeps(c2)
    ensures AppKeys([c0, c0, c1, c2]) == [KeyOf(c0), KeyOf(c0), KeyOf(c2)]
  {
    var f := (c: Candidate) => if AppKeeps(c) then [KeyOf(c)] else [];
    assert [c0, c0, c1, c2] == [c0] + [c0] + [c1] + [c2];
    FlatMapAppend([c0] + [c0] + [c1], [c2], f);
    FlatMapAppend([c0] + [c0], [c1], f);
    FlatMapAppend([c0], [c0], f);
    FlatMapOne(c0, f);
    FlatMapOne(c1, f);
    FlatMapOne(c2, f);
  }

  lemma ShapeKeeps(s: Store)
    requires SeedShape(s)
    ensures AppKeeps(Candidate(s.users[0], s.teams[0]))
    ensures !AppKeeps(Candidate(s.users[1], s.teams[0]))
    ensures AppKeeps(Candidate(s.users[1], s.teams[1]))
  {
    assert "FUR" != "LOD" by {
      assert "FUR"[0] != "LOD"[0];
    }
  }

  lemma ShapeAppKeys(s: Store)
    requires SeedShape(s)
    ensures AppKeys(Candidates(s)) == [KeyOf(Candidate(s.users[0], s.teams[0])),
      KeyOf(Candidate(s.users[0], s.teams[0])), KeyOf(Candidate(s.users[1], s.teams[1]))]
  {
    ShapeCandidates(s);
    ShapeKeeps(s);
    AppKeysOfFour(Candidate(s.users[0], s.teams[0]), Candidate(s.users[1], s.teams[0]), Candidate(s.users[1], s.teams[1]));
  }

  lemma ShapeNamed(s: Store)
    requires SeedShape(s)
    ensures SwitchMatchesStore(s)
  {
    assert s.teams == [s.teams[0], s.teams[1]];
    WithKeyPair(s.teams[0], s.teams[1], TeamShortName, Some("FURIA"));
    WithKeyPair(s.teams[0], s.teams[1], TeamShortName, Some("LOUD"));
    assert TeamsNamed(s, Some("FURIA")) == [s.teams[0]];
    assert TeamsNamed(s, Some("LOUD")) == [s.teams[1]];
  }

  lemma RowsOfThree(keys: seq<(string, Option<string>)>, k0: (string, Option<string>), k1: (string, Option<string>))
    requires k0 != k1 && keys == [k0, k0, k1]
    ensures ToRows(GroupCount(keys), Preferred.MakeRow) == [PreferredRow(k0.0, k0.1, 2), PreferredRow(k1.0, k1.1, 1)]
  {
    GroupOfThree(k0, k1);
  }

  lemma ShapeAppPreferred(s: Store)
    requires SeedShape(s)
    ensures AppPreferred(s) == [
      PreferredRow(s.users[0].name, Some("FURIA"), 2),
      PreferredRow(s.users[1].name, Some("LOUD"), 1)]
  {
    var k0, k1 := KeyOf(Candidate(s.users[0], s.teams[0])), KeyOf(Candidate(s.users[1], s.teams[1]));
    assert k0 != k1 by {
      assert "FURIA"[0] != "LOUD"[0];
    }
    ShapeAppKeys(s);
    RowsOfThree(AppKeys(Candidates(s)), k0, k1);
  }

  lemma ShapeLabels(s: Store)
    requires SeedShape(s)
    ensures forall u :: u in s.users ==> u.preferredTeam in {Some("FURIA"), Some("LOUD")}
  {
    assert s.users == [s.users[0], s.users[1]];
  }

  /** On any seed-shaped store, both versions of Q5 count 2 for the first user and 1 for the second. */
  lemma ShapePreferred(s: Store)
    requires SeedShape(s)
    ensures AppPreferred(s) == [
      PreferredRow(s.users[0].name, Some("FURIA"), 2),
      PreferredRow(s.users[1].name, Some("LOUD"), 1)]
    ensures ShortNamePreferred(s) == AppPreferred(s)
  {
    ShapeAppPreferred(s);
    ShapeNamed(s);
    ShapeLabels(s);
    VariantsAgree(s);
  }

  /**
    Eduardo (FURIA) has Jogador A and B of FUR and the free Jogador D, so
    2; Larissa (LOUD) has Jogador B of FUR and Jogador C of LOD, so 1. Both
    versions of the query agree on the seed data.
   */
  lemma SeedPreferred()
    ensures AppPreferred(SeedStore()) == [
      PreferredRow("Eduardo Fontes", Some("FURIA"), 2),
      PreferredRow("Larissa", Some("LOUD"), 1)]
    ensures ShortNamePreferred(SeedStore()) == AppPreferred(SeedStore())
  {
    SeedHasShape();
    ShapePreferred(SeedStore());
  }

  /** One user owning one user team whose single roster entry is one player of the one official team. */
  predicate SingleLink(s: Store)
  {
    && |s.users| == 1 && |s.teams| == 1 && |s.players| == 1 && |s.userTeams| == 1 && |s.roster| == 1
    && s.players[0].teamId == Some(s.teams[0].id)
    && s.userTeams[0].ownerId == s.users[0].id
    && s.roster[0].userTeamId == s.userTeams[0].id
    && s.roster[0].playerId == s.players[0].id
  }

  lemma SingleLinkCandidates(s: Store)
    requires SingleLink(s)
    ensures Candidates(s) == [Candidate(s.users[0], s.teams[0])]
  {
    var u, ut, e := s.users[0], s.userTeams[0], s.roster[0];
    var c := Candidate(u, s.teams[0]);
    PlayerCandidatesOf(s, u, s.players[0], 0);
    EntryCandidatesOf(s, u, e, 0);
    assert EntryCandidates(s, u, e) == [c];
    WithKeyOne(s.roster, EntryUserTeam, 0);
    assert EntriesOf(s, ut) == [e];
    FlatMapOne(e, (e: RosterEntry) => EntryCandidates(s, u, e));
    assert TeamCandidates(s, u, ut) == [c];
    WithKeyOne(s.userTeams, UserTeamOwner, 0);
    assert UserTeamsOf(s, u) == [ut];
    FlatMapOne(ut, (t: UserTeam) => TeamCandidates(s, u, t));
    assert UserCandidates(s, u) == [c];
    assert s.users == [u];
    FlatMapOne(u, (u: User) => UserCandidates(s, u));
  }

  /**
    A user with no preferred team and a single player on their roster, of a
    team that has a `nome_curto`: the application's query counts that player
    as one of the preferred team, the setup script's query gives the user
    no row.
   */
  lemma NoLabelCounted(s: Store)
    requires SingleLink(s) && s.users[0].preferredTeam.None? && s.teams[0].shortName.Some?
    ensures AppPreferred(s) == [PreferredRow(s.users[0].name, None, 1)]
    ensures ShortNamePreferred(s) == []
  {
    var c := Candidate(s.users[0], s.teams[0]);
    SingleLinkCandidates(s);
    AppCountsAnyTeam(c);
    FlatMapOne(c, (c: Candidate) => if AppKeeps(c) then [KeyOf(c)] else []);
    assert GroupCount([KeyOf(c)]) == [Group(KeyOf(c), 1)] by {
      assert [KeyOf(c)][..0] == [];
    }
    assert ShortNameMatches(s, c) == [];
    FlatMapOne(c, (c: Candidate) => seq(|ShortNameMatches(s, c)|, _ => KeyOf(c)));
  }

  /** Such a store: Ana has no preferred team and Jogador A of FUR on their team. */
  function NoLabelStore(): Store
  {
    Store(
      [User(1, "Ana", "ana@example.com", "hash", F, None, "1999-01-01", None)],
      [OfficialTeam(1, "Furia Esports", "FUR", Some("FURIA"))],
      [Player(1, "Jogador A", "Atacante", Some(1))],
      [UserTeam(1, "Time da Ana", 1)],
      [RosterEntry(1, 1, 1)])
  }

  lemma NoLabelExample()
    ensures AppPreferred(NoLabelStore()) == [PreferredRow("Ana", None, 1)]
    ensures ShortNamePreferred(NoLabelStore()) == []
  {
    NoLabelCounted(NoLabelStore());
  }
}
