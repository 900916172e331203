/**
  User teams with their players. Each user team is joined to its owner
  (teams whose owner is missing are dropped), then to its roster entries,
  then to the entries' players, and the rows are sorted by user-team name
  and then player name.

  The application keeps user teams without entries and entries without a
  player, as one row with a null player and position (a left join). The
  setup script's Q2 keeps neither (an inner join).
 */
module Rosters {
  import opened Wrappers
  import opened Ordering
  import opened Sorting
  import opened Collections
  import opened Store

  /** One output row: user-team `nome`, owner `nome`, player `nome`, player `posicao`. */
  datatype RosterRow = RosterRow(userTeam: string, owner: string, player: Option<string>, position: Option<string>)

  /** Sort key of both listings: user-team name, then player name (null first). */
  function RosterKey(r: RosterRow): seq<Key>
  {
    [Str(r.userTeam), OptStr(r.player)]
  }

  function Placeholder(t: UserTeam, o: User): RosterRow
  {
    RosterRow(t.name, o.name, None, None)
  }

  /** One row per player matching a roster entry. */
  function PlayerRows(t: UserTeam, o: User, ps: seq<Player>): (r: seq<RosterRow>)
    ensures |r| == |ps|
    ensures forall i :: 0 <= i < |ps| ==> r[i] == RosterRow(t.name, o.name, Some(ps[i].name), Some(ps[i].position))
  {
    seq(|ps|, i requires 0 <= i < |ps| => RosterRow(t.name, o.name, Some(ps[i].name), Some(ps[i].position)))
  }

  // ----- The application: left joins -----

  function EntryRowsLeft(s: Store, t: UserTeam, o: User, e: RosterEntry): seq<RosterRow>
  {
    var ps := PlayersOf(s, e);
    if |ps| == 0 then [Placeholder(t, o)] else PlayerRows(t, o, ps)
  }

  function EntriesRowsLeft(s: Store, t: UserTeam, o: User, es: seq<RosterEntry>): seq<RosterRow>
  {
    if |es| == 0 then [] else EntryRowsLeft(s, t, o, es[0]) + EntriesRowsLeft(s, t, o, es[1..])
  }

  function OwnerRowsLeft(s: Store, t: UserTeam, o: User): seq<RosterRow>
  {
    var es := EntriesOf(s, t);
    if |es| == 0 then [Placeholder(t, o)] else EntriesRowsLeft(s, t, o, es)
  }

  function OwnersRowsLeft(s: Store, t: UserTeam, os: seq<User>): seq<RosterRow>
  {
    if |os| == 0 then [] else OwnerRowsLeft(s, t, os[0]) + OwnersRowsLeft(s, t, os[1..])
  }

  /** The rows one user team contributes to the application's listing. */
  function TeamRowsLeft(s: Store, t: UserTeam): seq<RosterRow>
  {
    OwnersRowsLeft(s, t, OwnersOf(s, t))
  }

  function JoinRostersLeft(s: Store, ts: seq<UserTeam>): seq<RosterRow>
  {
    if |ts| == 0 then [] else TeamRowsLeft(s, ts[0]) + JoinRostersLeft(s, ts[1..])
  }

  /** The application's listing of user teams and their players. */
  function ListUserTeams(s: Store): seq<RosterRow>
  {
    SortBy(JoinRostersLeft(s, s.userTeams), RosterKey)
  }

  // ----- The setup script's Q2: inner joins -----

  function EntryRowsInner(s: Store, t: UserTeam, o: User, e: RosterEntry): seq<RosterRow>
  {
    PlayerRows(t, o, PlayersOf(s, e))
  }

  function EntriesRowsInner(s: Store, t: UserTeam, o: User, es: seq<RosterEntry>): seq<RosterRow>
  {
    if |es| == 0 then [] else EntryRowsInner(s, t, o, es[0]) + EntriesRowsInner(s, t, o, es[1..])
  }

  function OwnersRowsInner(s: Store, t: UserTeam, os: seq<User>): seq<RosterRow>
  {
    if |os| == 0 then [] else EntriesRowsInner(s, t, os[0], EntriesOf(s, t)) + OwnersRowsInner(s, t, os[1..])
  }

  /** The rows one user team contributes to Q2. */
  function TeamRowsInner(s: Store, t: UserTeam): seq<RosterRow>
  {
    OwnersRowsInner(s, t, OwnersOf(s, t))
  }

  function JoinRostersInner(s: Store, ts: seq<UserTeam>): seq<RosterRow>
  {
    if |ts| == 0 then [] else TeamRowsInner(s, ts[0]) + JoinRostersInner(s, ts[1..])
  }

  /** Q2 of the setup script. */
  function RostersWithPlayers(s: Store): seq<RosterRow>
  {
    SortBy(JoinRostersInner(s, s.userTeams), RosterKey)
  }

  // ----- Row counts of the application's listing -----

  /** The row an entry should produce: its player's name and position, or nulls when it has none. */
  function ExpectedEntryRow(s: Store, t: UserTeam, o: User, e: RosterEntry): (r: RosterRow)
    ensures r.userTeam == t.name && r.owner == o.name
    ensures r.player.None? <==> !HasKey(s.players, PlayerId, e.playerId)
    ensures r.player.None? <==> r.position.None?
  {
    match Find(s.players, PlayerId, e.playerId)
    case None => Placeholder(t, o)
    case Some(p) => RosterRow(t.name, o.name, Some(p.name), Some(p.position))
  }

  lemma {:induction false} EntriesRowsLeftExact(s: Store, t: UserTeam, o: User, es: seq<RosterEntry>)
    requires Injective(s.players, PlayerId)
    ensures |EntriesRowsLeft(s, t, o, es)| == |es|
    ensures forall i :: 0 <= i < |es| ==> EntriesRowsLeft(s, t, o, es)[i] == ExpectedEntryRow(s, t, o, es[i])
    decreases |es|
  {
    if |es| > 0 {
      WithKeyUnique(s.players, PlayerId, es[0].playerId);
      EntriesRowsLeftExact(s, t, o, es[1..]);
    }
  }

  /**
    Under unique ids, a user team with an owner contributes one row per
    roster entry, or exactly one row with null player and position when it
    has no entries; a user team whose owner does not exist contributes none.
   */
  lemma TeamRowsLeftSpec(s: Store, t: UserTeam)
    requires Injective(s.users, UserId) && Injective(s.players, PlayerId)
    ensures !HasKey(s.users, UserId, t.ownerId) ==> TeamRowsLeft(s, t) == []
    ensures HasKey(s.users, UserId, t.ownerId) && |EntriesOf(s, t)| == 0 ==>
      TeamRowsLeft(s, t) == [Placeholder(t, Find(s.users, UserId, t.ownerId).value)]
    ensures HasKey(s.users, UserId, t.ownerId) && |EntriesOf(s, t)| > 0 ==>
      var o := Find(s.users, UserId, t.ownerId).value;
      var es := EntriesOf(s, t);
      && |TeamRowsLeft(s, t)| == |es|
      && forall i :: 0 <= i < |es| ==> TeamRowsLeft(s, t)[i] == ExpectedEntryRow(s, t, o, es[i])
  {
    WithKeyUnique(s.users, UserId, t.ownerId);
    if HasKey(s.users, UserId, t.ownerId) {
      var o := Find(s.users, UserId, t.ownerId).value;
      assert OwnersOf(s, t) == [o];
      assert [o][1..] == [];
      assert TeamRowsLeft(s, t) == OwnerRowsLeft(s, t, o) + OwnersRowsLeft(s, t, []);
      EntriesRowsLeftExact(s, t, o, EntriesOf(s, t));
    }
  }

  // ----- Q2 is the application's listing without the null-player rows -----

  /** `inner` holds exactly the rows of `left` that name a player, each as often. */
  ghost predicate NullsDropped(inner: seq<RosterRow>, left: seq<RosterRow>)
  {
    forall x :: multiset(inner)[x] == if x.player.Some? then multiset(left)[x] else 0
  }

  lemma NullsDroppedAppend(a: seq<RosterRow>, b: seq<RosterRow>, a': seq<RosterRow>, b': seq<RosterRow>)
    requires NullsDropped(a, a') && NullsDropped(b, b')
    ensures NullsDropped(a + b, a' + b')
  {
    assert multiset(a + b) == multiset(a) + multiset(b);
    assert multiset(a' + b') == multiset(a') + multiset(b');
  }

  lemma EntryInnerIsLeftWithPlayer(s: Store, t: UserTeam, o: User, e: RosterEntry)
    ensures NullsDropped(EntryRowsInner(s, t, o, e), EntryRowsLeft(s, t, o, e))
  {
    var ps := PlayersOf(s, e);
    if |ps| == 0 {
      assert EntryRowsInner(s, t, o, e) == [];
      assert EntryRowsLeft(s, t, o, e) == [Placeholder(t, o)];
    } else {
      var rows := PlayerRows(t, o, ps);
      forall x: RosterRow ensures multiset(rows)[x] == if x.player.Some? then multiset(rows)[x] else 0 {
        if x.player.None? {
          assert x !in rows;
        }
      }
    }
  }

  lemma {:induction false} EntriesInnerIsLeftWithPlayer(s: Store, t: UserTeam, o: User, es: seq<RosterEntry>)
    ensures NullsDropped(EntriesRowsInner(s, t, o, es), EntriesRowsLeft(s, t, o, es))
    decreases |es|
  {
    if |es| > 0 {
      EntriesInnerIsLeftWithPlayer(s, t, o, es[1..]);
      EntryInnerIsLeftWithPlayer(s, t, o, es[0]);
      NullsDroppedAppend(EntryRowsInner(s, t, o, es[0]), EntriesRowsInner(s, t, o, es[1..]),
                         EntryRowsLeft(s, t, o, es[0]), EntriesRowsLeft(s, t, o, es[1..]));
    }
  }

  lemma {:induction false} OwnersInnerIsLeftWithPlayer(s: Store, t: UserTeam, os: seq<User>)
    ensures NullsDropped(OwnersRowsInner(s, t, os), OwnersRowsLeft(s, t, os))
    decreases |os|
  {
    if |os| > 0 {
      var es := EntriesOf(s, t);
      OwnersInnerIsLeftWithPlayer(s, t, os[1..]);
      EntriesInnerIsLeftWithPlayer(s, t, os[0], es);
      if |es| == 0 {
        assert EntriesRowsInner(s, t, os[0], es) == [];
        assert OwnerRowsLeft(s, t, os[0]) == [Placeholder(t, os[0])];
      }
      NullsDroppedAppend(EntriesRowsInner(s, t, os[0], es), OwnersRowsInner(s, t, os[1..]),
                         OwnerRowsLeft(s, t, os[0]), OwnersRowsLeft(s, t, os[1..]));
    }
  }

  lemma {:induction false} JoinInnerIsLeftWithPlayer(s: Store, ts: seq<UserTeam>)
    ensures NullsDropped(JoinRostersInner(s, ts), JoinRostersLeft(s, ts))
    decreases |ts|
  {
    if |ts| > 0 {
      JoinInnerIsLeftWithPlayer(s, ts[1..]);
      OwnersInnerIsLeftWithPlayer(s, ts[0], OwnersOf(s, ts[0]));
      NullsDroppedAppend(TeamRowsInner(s, ts[0]), JoinRostersInner(s, ts[1..]),
                         TeamRowsLeft(s, ts[0]), JoinRostersLeft(s, ts[1..]));
    }
  }

  /**
    Q2 holds exactly the rows of the application's listing that name a
    player, each as often; the rows with a null player are the ones the
    inner join drops.
   */
  lemma InnerIsLeftWithoutNulls(s: Store)
    ensures forall x ::
      multiset(RostersWithPlayers(s))[x] == if x.player.Some? then multiset(ListUserTeams(s))[x] else 0
  {
    JoinInnerIsLeftWithPlayer(s, s.userTeams);
  }

  // ----- Row count of Q2 -----

  predicate PlayerResolves(s: Store, e: RosterEntry)
  {
    HasKey(s.players, PlayerId, e.playerId)
  }

  /** Some user team of `ts` has id `id` and an owner that exists. */
  predicate ListedUserTeam(s: Store, ts: seq<UserTeam>, id: int)
  {
    exists i :: 0 <= i < |ts| && ts[i].id == id && HasKey(s.users, UserId, ts[i].ownerId)
  }

  /** The roster entries whose user team, owner and player all resolve. */
  function ReachableEntries(s: Store, ts: seq<UserTeam>, es: seq<RosterEntry>): nat
  {
    if |es| == 0 then 0
    else (if ListedUserTeam(s, ts, es[0].userTeamId) && PlayerResolves(s, es[0]) then 1 else 0)
         + ReachableEntries(s, ts, es[1..])
  }

  /** The entries of `es` for user team `id` whose player resolves. */
  function ResolvedEntriesOf(s: Store, es: seq<RosterEntry>, id: int): nat
  {
    if |es| == 0 then 0
    else (if es[0].userTeamId == id && PlayerResolves(s, es[0]) then 1 else 0) + ResolvedEntriesOf(s, es[1..], id)
  }

  lemma {:induction false} EntriesRowsInnerLength(s: Store, t: UserTeam, o: User, es: seq<RosterEntry>)
    requires Injective(s.players, PlayerId)
    requires forall i :: 0 <= i < |es| ==> es[i].userTeamId == t.id
    ensures |EntriesRowsInner(s, t, o, es)| == ResolvedEntriesOf(s, es, t.id)
    decreases |es|
  {
    if |es| > 0 {
      WithKeyUnique(s.players, PlayerId, es[0].playerId);
      EntriesRowsInnerLength(s, t, o, es[1..]);
    }
  }

  /** Counting resolved entries of one team over the looked-up entries or over the whole roster agrees. */
  lemma {:induction false} ResolvedEntriesOfLookup(s: Store, es: seq<RosterEntry>, id: int)
    ensures ResolvedEntriesOf(s, WithKey(es, EntryUserTeam, id), id) == ResolvedEntriesOf(s, es, id)
    decreases |es|
  {
    if |es| > 0 {
      ResolvedEntriesOfLookup(s, es[1..], id);
      if es[0].userTeamId == id {
        assert WithKey(es, EntryUserTeam, id)[1..] == WithKey(es[1..], EntryUserTeam, id);
      }
    }
  }

  /** Under unique ids, a user team contributes to Q2 one row per entry whose player resolves. */
  lemma TeamRowsInnerLength(s: Store, t: UserTeam)
    requires Injective(s.users, UserId) && Injective(s.players, PlayerId)
    ensures |TeamRowsInner(s, t)| == if HasKey(s.users, UserId, t.ownerId) then ResolvedEntriesOf(s, s.roster, t.id) else 0
    ensures |EntriesOf(s, t)| == 0 ==> TeamRowsInner(s, t) == []
  {
    WithKeyUnique(s.users, UserId, t.ownerId);
    var es := EntriesOf(s, t);
    if HasKey(s.users, UserId, t.ownerId) {
      var o := Find(s.users, UserId, t.ownerId).value;
      assert OwnersOf(s, t) == [o];
      assert [o][1..] == [];
      assert TeamRowsInner(s, t) == EntriesRowsInner(s, t, o, es) + OwnersRowsInner(s, t, []);
      forall i | 0 <= i < |es| ensures es[i].userTeamId == t.id {
        assert es[i] in es;
      }
      EntriesRowsInnerLength(s, t, o, es);
      ResolvedEntriesOfLookup(s, s.roster, t.id);
    }
  }

  /** Splitting off the first user team of a uniquely keyed list when counting reachable entries. */
  lemma {:induction false} ReachableSplit(s: Store, t: UserTeam, rest: seq<UserTeam>, es: seq<RosterEntry>)
    requires !HasKey(rest, UserTeamId, t.id)
    ensures ReachableEntries(s, [t] + rest, es) ==
      (if HasKey(s.users, UserId, t.ownerId) then ResolvedEntriesOf(s, es, t.id) else 0) + ReachableEntries(s, rest, es)
    decreases |es|
  {
    if |es| > 0 {
      ReachableSplit(s, t, rest, es[1..]);
      var ts := [t] + rest;
      var id := es[0].userTeamId;
      if ListedUserTeam(s, ts, id) {
        var i :| 0 <= i < |ts| && ts[i].id == id && HasKey(s.users, UserId, ts[i].ownerId);
        if i > 0 {
          assert ts[i] == rest[i - 1];
        }
      }
      if ListedUserTeam(s, rest, id) {
        var i :| 0 <= i < |rest| && rest[i].id == id && HasKey(s.users, UserId, rest[i].ownerId);
        assert ts[i + 1] == rest[i];
      }
      if id == t.id && HasKey(s.users, UserId, t.ownerId) {
        assert ts[0] == t;
      }
    }
  }

  lemma {:induction false} JoinRostersInnerLength(s: Store, ts: seq<UserTeam>)
    requires Injective(s.users, UserId) && Injective(s.players, PlayerId)
    requires Injective(ts, UserTeamId)
    ensures |JoinRostersInner(s, ts)| == ReachableEntries(s, ts, s.roster)
    decreases |ts|
  {
    if |ts| == 0 {
      ReachableEmpty(s, s.roster);
    } else {
      assert ts == [ts[0]] + ts[1..];
      InjectiveTail(ts[0], ts[1..], UserTeamId);
      JoinRostersInnerLength(s, ts[1..]);
      TeamRowsInnerLength(s, ts[0]);
      ReachableSplit(s, ts[0], ts[1..], s.roster);
    }
  }

  lemma {:induction false} ReachableEmpty(s: Store, es: seq<RosterEntry>)
    ensures ReachableEntries(s, [], es) == 0
    decreases |es|
  {
    if |es| > 0 {
      ReachableEmpty(s, es[1..]);
    }
  }

  /**
    Under unique ids, Q2 has one row per roster entry whose user team,
    owner and player all exist; it is sorted by user-team and player name.
   */
  lemma RostersWithPlayersSpec(s: Store)
    requires Valid(s)
    ensures |RostersWithPlayers(s)| == ReachableEntries(s, s.userTeams, s.roster)
    ensures SortedBy(RostersWithPlayers(s), RosterKey)
    ensures forall x :: x in RostersWithPlayers(s) ==> x.player.Some? && x.position.Some?
  {
    JoinRostersInnerLength(s, s.userTeams);
    InnerIsLeftWithoutNulls(s);
    forall x | x in RostersWithPlayers(s) ensures x.player.Some? && x.position.Some? {
      InnerRowNamesPlayer(s, s.userTeams, x);
    }
  }

  lemma {:induction false} InnerRowNamesPlayer(s: Store, ts: seq<UserTeam>, x: RosterRow)
    requires x in multiset(JoinRostersInner(s, ts))
    ensures x.player.Some? && x.position.Some?
    decreases |ts|
  {
    if |ts| > 0 {
      var t := ts[0];
      if x in TeamRowsInner(s, t) {
        InnerOwnersRowNamesPlayer(s, t, OwnersOf(s, t), x);
      } else {
        InnerRowNamesPlayer(s, ts[1..], x);
      }
    }
  }

  lemma {:induction false} InnerOwnersRowNamesPlayer(s: Store, t: UserTeam, os: seq<User>, x: RosterRow)
    requires x in OwnersRowsInner(s, t, os)
    ensures x.player.Some? && x.position.Some?
    decreases |os|
  {
    if |os| > 0 {
      if x in EntriesRowsInner(s, t, os[0], EntriesOf(s, t)) {
        InnerEntriesRowNamesPlayer(s, t, os[0], EntriesOf(s, t), x);
      } else {
        InnerOwnersRowNamesPlayer(s, t, os[1..], x);
      }
    }
  }

  lemma {:induction false} InnerEntriesRowNamesPlayer(s: Store, t: UserTeam, o: User, es: seq<RosterEntry>, x: RosterRow)
    requires x in EntriesRowsInner(s, t, o, es)
    ensures x.player.Some? && x.position.Some?
    decreases |es|
  {
    if |es| > 0 && x !in EntryRowsInner(s, t, o, es[0]) {
      InnerEntriesRowNamesPlayer(s, t, o, es[1..], x);
    }
  }

  /** The application's listing is sorted by user-team name and then player name (null first). */
  lemma ListUserTeamsSorted(s: Store)
    ensures SortedBy(ListUserTeams(s), RosterKey)
    ensures multiset(ListUserTeams(s)) == multiset(JoinRostersLeft(s, s.userTeams))
  {
  }
}
