/**
  Players with their official team: a `$lookup` of the player's `time_id`
  followed by an `$unwind` that keeps players without a match (a left join).
  The application lists the rows by player name; the setup script (Q1) by
  team name and then player name, with the null team first.
 */
module Listings {
  import opened Wrappers
  import opened Ordering
  import opened Sorting
  import opened Collections
  import opened Store

  /** One output row: `_id`, `nome`, `posicao` and the team's `nome` or null. */
  datatype PlayerRow = PlayerRow(id: int, name: string, position: string, team: Option<string>)

  /** The rows the unwind emits for one player: one per matching team, or one with a null team. */
  function PlayerTeamRows(s: Store, p: Player): seq<PlayerRow>
  {
    var ts := TeamsOf(s, p);
    if |ts| == 0 then
      [PlayerRow(p.id, p.name, p.position, None)]
    else
      seq(|ts|, i requires 0 <= i < |ts| => PlayerRow(p.id, p.name, p.position, Some(ts[i].name)))
  }

  /** The joined rows of a sequence of players, before sorting. */
  function JoinPlayers(s: Store, ps: seq<Player>): seq<PlayerRow>
  {
    if |ps| == 0 then [] else PlayerTeamRows(s, ps[0]) + JoinPlayers(s, ps[1..])
  }

  /**
    The row a player should produce: its own fields and the name of the
    official team its `time_id` resolves to, null exactly when it resolves
    to none.
   */
  function ExpectedRow(s: Store, p: Player): (r: PlayerRow)
    ensures r.id == p.id && r.name == p.name && r.position == p.position
    ensures r.team.None? <==> p.teamId.None? || !HasKey(s.teams, TeamId, p.teamId.value)
    ensures r.team.Some? ==> exists t :: t in s.teams && Some(t.id) == p.teamId && r.team == Some(t.name)
  {
    match TeamOf(s, p)
    case None => PlayerRow(p.id, p.name, p.position, None)
    case Some(t) => PlayerRow(p.id, p.name, p.position, Some(t.name))
  }

  /** The expected rows of all players, in store order. */
  function ExpectedRows(s: Store, ps: seq<Player>): (r: seq<PlayerRow>)
    ensures |r| == |ps|
    ensures forall i :: 0 <= i < |ps| ==> r[i] == ExpectedRow(s, ps[i])
  {
    seq(|ps|, i requires 0 <= i < |ps| => ExpectedRow(s, ps[i]))
  }

  /** Sort key of the application's listing: the player's name. */
  function NameKey(r: PlayerRow): seq<Key>
  {
    [Str(r.name)]
  }

  /** Sort key of Q1: the team name (null first), then the player's name. */
  function TeamNameKey(r: PlayerRow): seq<Key>
  {
    [OptStr(r.team), Str(r.name)]
  }

  /** The application's player listing. */
  function ListPlayers(s: Store): seq<PlayerRow>
  {
    SortBy(JoinPlayers(s, s.players), NameKey)
  }

  /** Q1 of the setup script. */
  function PlayersWithTeams(s: Store): seq<PlayerRow>
  {
    SortBy(JoinPlayers(s, s.players), TeamNameKey)
  }

  /** Under unique team ids the left join emits exactly one row per player: its expected row. */
  lemma {:induction false} JoinPlayersExact(s: Store, ps: seq<Player>)
    requires Injective(s.teams, TeamId)
    ensures JoinPlayers(s, ps) == ExpectedRows(s, ps)
    decreases |ps|
  {
    if |ps| > 0 {
      TeamsOfResolved(s, ps[0]);
      JoinPlayersExact(s, ps[1..]);
      assert ExpectedRows(s, ps) == [ExpectedRow(s, ps[0])] + ExpectedRows(s, ps[1..]);
    }
  }

  /**
    The application's listing keeps every player exactly once, with a null
    team exactly when its `time_id` resolves to no official team, ordered
    by player name.
   */
  lemma ListPlayersSpec(s: Store)
    requires Injective(s.teams, TeamId)
    ensures |ListPlayers(s)| == |s.players|
    ensures multiset(ListPlayers(s)) == multiset(ExpectedRows(s, s.players))
    ensures SortedBy(ListPlayers(s), NameKey)
    ensures forall r :: r in ListPlayers(s) <==> exists p :: p in s.players && r == ExpectedRow(s, p)
  {
    JoinPlayersExact(s, s.players);
    ExpectedRowsMembers(s, ListPlayers(s));
  }

  /** Q1 keeps every player exactly once, ordered by team name (null first) and then name. */
  lemma PlayersWithTeamsSpec(s: Store)
    requires Injective(s.teams, TeamId)
    ensures |PlayersWithTeams(s)| == |s.players|
    ensures multiset(PlayersWithTeams(s)) == multiset(ExpectedRows(s, s.players))
    ensures SortedBy(PlayersWithTeams(s), TeamNameKey)
    ensures forall r :: r in PlayersWithTeams(s) <==> exists p :: p in s.players && r == ExpectedRow(s, p)
  {
    JoinPlayersExact(s, s.players);
    ExpectedRowsMembers(s, PlayersWithTeams(s));
  }

  /** A permutation of the expected rows holds exactly the players' expected rows. */
  lemma ExpectedRowsMembers(s: Store, rows: seq<PlayerRow>)
    requires multiset(rows) == multiset(ExpectedRows(s, s.players))
    ensures forall r :: r in rows <==> exists p :: p in s.players && r == ExpectedRow(s, p)
  {
    var e := ExpectedRows(s, s.players);
    forall r ensures r in rows <==> exists p :: p in s.players && r == ExpectedRow(s, p) {
      assert r in rows <==> r in multiset(e);
      if r in e {
        var i :| 0 <= i < |e| && e[i] == r;
        assert s.players[i] in s.players;
      }
      if exists p :: p in s.players && r == ExpectedRow(s, p) {
        var p :| p in s.players && r == ExpectedRow(s, p);
        var i :| 0 <= i < |s.players| && s.players[i] == p;
        assert e[i] == r;
      }
    }
  }

  /** The application's listing and Q1 hold the same rows, only in a different order. */
  lemma ListingsAgree(s: Store)
    ensures multiset(ListPlayers(s)) == multiset(PlayersWithTeams(s))
  {
  }

  /** Q1's row for a player with a dangling `time_id` has a null team, as for a free agent. */
  lemma DanglingTeamListedAsNull(s: Store, p: Player)
    requires Injective(s.teams, TeamId)
    requires p in s.players && p.teamId.Some? && !HasKey(s.teams, TeamId, p.teamId.value)
    ensures PlayerRow(p.id, p.name, p.position, None) in PlayersWithTeams(s)
  {
    PlayersWithTeamsSpec(s);
  }
}
