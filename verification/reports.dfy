/**
  Two reports over players: the number of players per position in each
  official team, and the players without an official team.
 */
module Reports {
  import opened Wrappers
  import opened Ordering
  import opened Sorting
  import opened Grouping
  import opened Collections
  import opened Store
  import opened Listings

  /** One row of the position report: team `nome`, `posicao` and `qtd`. */
  datatype PositionCount = PositionCount(team: string, position: string, count: nat)

  /** One row of the free-agent report: `_id`, `nome` and `posicao`. */
  datatype FreeAgentRow = FreeAgentRow(id: int, name: string, position: string)

  /**
    The (team name, position) pairs reaching the `$group` stage: players
    with a null `time_id` are filtered out, and the team lookup is unwound
    without keeping players whose team is missing.
   */
  function PositionKeys(s: Store, ps: seq<Player>): seq<(string, string)>
  {
    if |ps| == 0 then
      []
    else
      var p := ps[0];
      var ts := if p.teamId.None? then [] else TeamsOf(s, p);
      seq(|ts|, i requires 0 <= i < |ts| => (ts[i].name, p.position)) + PositionKeys(s, ps[1..])
  }

  /** The `$project` of a group into a report row. */
  function MakeCount(k: (string, string), n: nat): PositionCount
  {
    PositionCount(k.0, k.1, n)
  }

  /** Sort key of the position report: team name ascending, then count descending. */
  function CountKey(r: PositionCount): seq<Key>
  {
    [Str(r.team), Num(-(r.count as int))]
  }

  function RowKey(r: PositionCount): (string, string) { (r.team, r.position) }
  function RowCount(r: PositionCount): int { r.count }

  /** The position report (the application's query and Q3 of the setup script). */
  function PositionCounts(s: Store): seq<PositionCount>
  {
    SortBy(ToRows(GroupCount(PositionKeys(s, s.players)), MakeCount), CountKey)
  }

  /** The free-agent report: the players whose `time_id` is null, in store order. */
  function FreeAgents(s: Store): seq<FreeAgentRow>
  {
    FreeAgentsOf(s.players)
  }

  function FreeAgentsOf(ps: seq<Player>): (r: seq<FreeAgentRow>)
    ensures forall x :: x in r <==> exists p :: p in ps && p.teamId.None? && x == FreeAgentRow(p.id, p.name, p.position)
    ensures |r| <= |ps|
  {
    if |ps| == 0 then
      []
    else
      assert forall p :: p in ps <==> p == ps[0] || p in ps[1..] by {
        assert ps == [ps[0]] + ps[1..];
      }
      var p := ps[0];
      (if p.teamId.None? then [FreeAgentRow(p.id, p.name, p.position)] else []) + FreeAgentsOf(ps[1..])
  }

  // ----- Reference counts over the players -----

  /** Players whose team resolves to a team named `team` and who play `position`. */
  function PlayersAt(s: Store, ps: seq<Player>, team: string, position: string): nat
  {
    if |ps| == 0 then 0
    else
      var t := TeamOf(s, ps[0]);
      (if t.Some? && t.value.name == team && ps[0].position == position then 1 else 0)
      + PlayersAt(s, ps[1..], team, position)
  }

  /** Players whose `time_id` resolves to an official team. */
  function ResolvedPlayers(s: Store, ps: seq<Player>): nat
  {
    if |ps| == 0 then 0 else (if TeamOf(s, ps[0]).Some? then 1 else 0) + ResolvedPlayers(s, ps[1..])
  }

  /** Players whose `time_id` is set but names no official team. */
  function DanglingPlayers(s: Store, ps: seq<Player>): nat
  {
    if |ps| == 0 then 0
    else (if ps[0].teamId.Some? && TeamOf(s, ps[0]).None? then 1 else 0) + DanglingPlayers(s, ps[1..])
  }

  /** Under unique team ids, the grouped keys count exactly the players with a resolved team. */
  lemma {:induction false} PositionKeysCount(s: Store, ps: seq<Player>)
    requires Injective(s.teams, TeamId)
    ensures |PositionKeys(s, ps)| == ResolvedPlayers(s, ps)
    ensures forall k :: multiset(PositionKeys(s, ps))[k] == PlayersAt(s, ps, k.0, k.1)
    decreases |ps|
  {
    if |ps| > 0 {
      var p := ps[0];
      TeamsOfResolved(s, p);
      PositionKeysCount(s, ps[1..]);
      var ts := if p.teamId.None? then [] else TeamsOf(s, p);
      var head := seq(|ts|, i requires 0 <= i < |ts| => (ts[i].name, p.position));
      assert PositionKeys(s, ps) == head + PositionKeys(s, ps[1..]);
      assert multiset(PositionKeys(s, ps)) == multiset(head) + multiset(PositionKeys(s, ps[1..]));
      if TeamOf(s, p).Some? {
        assert head == [(TeamOf(s, p).value.name, p.position)];
      } else {
        assert head == [];
      }
    }
  }

  /**
    Under unique team ids, the position report has one row per (team name,
    position) that some player with a resolved team holds, with a count of
    at least 1 equal to the number of such players; players with a null or
    unresolvable `time_id` are not counted, the counts add up to the players
    with a resolved team, and the rows are ordered by team name ascending
    and count descending.
   */
  lemma PositionCountsSpec(s: Store)
    requires Injective(s.teams, TeamId)
    ensures SortedBy(PositionCounts(s), CountKey)
    ensures Injective(PositionCounts(s), RowKey)
    ensures forall x :: x in PositionCounts(s) ==> x.count >= 1 && x.count == PlayersAt(s, s.players, x.team, x.position)
    ensures forall p :: p in s.players && TeamOf(s, p).Some? ==>
      HasKey(PositionCounts(s), RowKey, (TeamOf(s, p).value.name, p.position))
    ensures SumOf(PositionCounts(s), RowCount) == ResolvedPlayers(s, s.players)
  {
    var rows := ToRows(GroupCount(PositionKeys(s, s.players)), MakeCount);
    var r := PositionCounts(s);
    GroupedRowsSpec(s);
    InjectiveSortBy(rows, CountKey, RowKey);
    SumOfSortBy(rows, CountKey, RowCount);
    forall x | x in r ensures x in rows {
      assert x in multiset(rows);
    }
    forall p | p in s.players && TeamOf(s, p).Some?
      ensures HasKey(r, RowKey, (TeamOf(s, p).value.name, p.position))
    {
      HasKeyPerm(rows, r, RowKey, (TeamOf(s, p).value.name, p.position));
    }
  }

  /** The facts of `PositionCountsSpec` other than order, for the rows before sorting. */
  lemma GroupedRowsSpec(s: Store)
    requires Injective(s.teams, TeamId)
    ensures var rows := ToRows(GroupCount(PositionKeys(s, s.players)), MakeCount);
      && Injective(rows, RowKey)
      && (forall x :: x in rows ==> x.count >= 1 && x.count == PlayersAt(s, s.players, x.team, x.position))
      && (forall p :: p in s.players && TeamOf(s, p).Some? ==>
            HasKey(rows, RowKey, (TeamOf(s, p).value.name, p.position)))
      && SumOf(rows, RowCount) == ResolvedPlayers(s, s.players)
  {
    var keys := PositionKeys(s, s.players);
    var gs := GroupCount(keys);
    PositionKeysCount(s, s.players);
    RowsOfGroups(gs, MakeCount, RowKey, RowCount);
    forall p | p in s.players && TeamOf(s, p).Some?
      ensures (TeamOf(s, p).value.name, p.position) in KeysOf(gs)
    {
      PlayersAtMember(s, s.players, p);
      assert (TeamOf(s, p).value.name, p.position) in multiset(keys);
    }
  }

  lemma {:induction false} PlayersAtMember(s: Store, ps: seq<Player>, p: Player)
    requires p in ps && TeamOf(s, p).Some?
    ensures PlayersAt(s, ps, TeamOf(s, p).value.name, p.position) >= 1
    decreases |ps|
  {
    if ps[0] != p {
      PlayersAtMember(s, ps[1..], p);
    }
  }

  // ----- Coverage -----

  function IsNullTeam(r: PlayerRow): int { if r.team.None? then 1 else 0 }

  lemma {:induction false} PlayerPartition(s: Store, ps: seq<Player>)
    ensures |FreeAgentsOf(ps)| + ResolvedPlayers(s, ps) + DanglingPlayers(s, ps) == |ps|
    ensures SumOf(ExpectedRows(s, ps), IsNullTeam) == |FreeAgentsOf(ps)| + DanglingPlayers(s, ps)
    decreases |ps|
  {
    if |ps| > 0 {
      PlayerPartition(s, ps[1..]);
      assert ExpectedRows(s, ps)[1..] == ExpectedRows(s, ps[1..]);
    }
  }

  /**
    Under unique team ids every player is counted exactly once among the
    free agents, the position report and the players whose `time_id` names
    no team; when every non-null `time_id` resolves, the free agents and the
    position report cover all players.
   */
  lemma ReportsCoverPlayers(s: Store)
    requires Injective(s.teams, TeamId)
    ensures |FreeAgents(s)| + SumOf(PositionCounts(s), RowCount) + DanglingPlayers(s, s.players) == |s.players|
    ensures DanglingPlayers(s, s.players) == 0 ==>
      |FreeAgents(s)| + SumOf(PositionCounts(s), RowCount) == |s.players|
  {
    PositionCountsSpec(s);
    PlayerPartition(s, s.players);
  }

  /**
    Under unique team ids, the left join of players to teams gives a null
    team to each free agent and to each player whose `time_id` names no team.
   */
  lemma NullJoinRows(s: Store, ps: seq<Player>)
    requires Injective(s.teams, TeamId)
    ensures SumOf(JoinPlayers(s, ps), IsNullTeam) == |FreeAgentsOf(ps)| + DanglingPlayers(s, ps)
  {
    JoinPlayersExact(s, ps);
    PlayerPartition(s, ps);
  }

  /**
    The rows of Q1 with a null team are the free agents plus the players
    whose `time_id` names no team; with no such players they are as many as
    the free-agent report's rows.
   */
  lemma NullTeamRowsAreFreeAgents(s: Store)
    requires Injective(s.teams, TeamId)
    ensures SumOf(PlayersWithTeams(s), IsNullTeam) == |FreeAgents(s)| + DanglingPlayers(s, s.players)
    ensures DanglingPlayers(s, s.players) == 0 ==> SumOf(PlayersWithTeams(s), IsNullTeam) == |FreeAgents(s)|
  {
    NullJoinRows(s, s.players);
    SumOfSortBy(JoinPlayers(s, s.players), TeamNameKey, IsNullTeam);
  }
}
