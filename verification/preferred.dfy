/**
  The preferred-team query (Q5): for every user, how many of the players on
  their user teams belong to their preferred official team.

  Both versions of the pipeline start with the same four `$lookup`/`$unwind`
  pairs (user, user team, roster entry, player, the player's official team)
  and end by grouping on the user's `nome` and `time_preferido`. They differ
  in how they decide that a player's team is the preferred one:
  - the application maps the label with a fixed `$switch` ("FURIA" to "FUR",
    "LOUD" to "LOD") and otherwise falls back to the player's own `sigla`;
  - the setup script looks up the official teams whose `nome_curto` equals
    the label and compares their `sigla`.
 */
module Preferred {
  import opened Wrappers
  import opened Collections
  import opened Grouping
  import opened Store
  import opened Joins

  /** One output row: `usuario`, `time_preferido` and `jogadores_do_time_preferido`. */
  datatype PreferredRow = PreferredRow(user: string, preferred: Option<string>, count: nat)

  // ----- Grouping -----

  /** The `$group` key: the user's `nome` and `time_preferido`. */
  function KeyOf(c: Candidate): (string, Option<string>)
  {
    (c.user.name, c.user.preferredTeam)
  }

  /** The `$project` of a group into an output row. */
  function MakeRow(k: (string, Option<string>), n: nat): PreferredRow
  {
    PreferredRow(k.0, k.1, n)
  }

  function RowKey(r: PreferredRow): (string, Option<string>) { (r.user, r.preferred) }
  function RowCount(r: PreferredRow): int { r.count }

  // ----- The application's version -----

  /** The `$switch` of the application: the `sigla` a preferred-team label stands for. */
  function AppPreferredCode(preferred: Option<string>, code: string): string
  {
    if preferred == Some("FURIA") then "FUR"
    else if preferred == Some("LOUD") then "LOD"
    else code
  }

  /** The `$match` of the application: the player's `sigla` equals the switched one. */
  predicate AppKeeps(c: Candidate)
  {
    c.team.code == AppPreferredCode(c.user.preferredTeam, c.team.code)
  }

  function AppKeys(cs: seq<Candidate>): seq<(string, Option<string>)>
  {
    FlatMap(cs, (c: Candidate) => if AppKeeps(c) then [KeyOf(c)] else [])
  }

  /** The `$match` and `$group` stages of the application's query over the joined rows `cs`. */
  function AppRows(cs: seq<Candidate>): seq<PreferredRow>
  {
    ToRows(GroupCount(AppKeys(cs)), MakeRow)
  }

  /** The application's preferred-team query. */
  function AppPreferred(s: Store): seq<PreferredRow>
  {
    AppRows(Candidates(s))
  }

  /** The number of candidates with key `k` that the application's `$match` keeps. */
  function AppKept(cs: seq<Candidate>, k: (string, Option<string>)): nat
  {
    if |cs| == 0 then 0
    else (if AppKeeps(cs[0]) && KeyOf(cs[0]) == k then 1 else 0) + AppKept(cs[1..], k)
  }

  lemma {:induction false} AppKeysCount(cs: seq<Candidate>, k: (string, Option<string>))
    ensures multiset(AppKeys(cs))[k] == AppKept(cs, k)
    decreases |cs|
  {
    if |cs| > 0 {
      AppKeysCount(cs[1..], k);
    }
  }

  lemma {:induction false} AppKeptSum(cs: seq<Candidate>, k: (string, Option<string>), w: Candidate -> int)
    requires forall c :: w(c) == if AppKeeps(c) && KeyOf(c) == k then 1 else 0
    ensures AppKept(cs, k) == SumOf(cs, w)
    decreases |cs|
  {
    if |cs| > 0 {
      AppKeptSum(cs[1..], k, w);
    }
  }

  /** Roster entry `e` resolves to a pair that the application's `$match` keeps, with key `k`. */
  predicate AppEntryKept(s: Store, e: RosterEntry, k: (string, Option<string>))
  {
    var c := EntryCandidate(s, e);
    c.Some? && AppKeeps(c.value) && KeyOf(c.value) == k
  }

  /** The number of roster entries of `es` that resolve to a kept pair with key `k`. */
  function AppEntries(s: Store, es: seq<RosterEntry>, k: (string, Option<string>)): nat
  {
    if |es| == 0 then 0 else (if AppEntryKept(s, es[0], k) then 1 else 0) + AppEntries(s, es[1..], k)
  }

  lemma {:induction false} AppEntriesSum(s: Store, es: seq<RosterEntry>, k: (string, Option<string>),
                                         w: Candidate -> int, h: RosterEntry -> int)
    requires forall c :: w(c) == if AppKeeps(c) && KeyOf(c) == k then 1 else 0
    requires forall e :: h(e) == EntryWeight(s, w, e)
    ensures AppEntries(s, es, k) == SumOf(es, h)
    decreases |es|
  {
    if |es| > 0 {
      AppEntriesSum(s, es[1..], k, w, h);
    }
  }

  /**
    Under the store's unique indexes, the joined rows that the `$switch`
    keeps with key `k` are as many as the roster entries that resolve to
    such a pair.
   */
  lemma AppKeptByEntry(s: Store, k: (string, Option<string>))
    requires Valid(s)
    ensures AppKept(Candidates(s), k) == AppEntries(s, s.roster, k)
  {
    var w := (c: Candidate) => if AppKeeps(c) && KeyOf(c) == k then 1 else 0;
    var h := (e: RosterEntry) => EntryWeight(s, w, e);
    AppKeptSum(Candidates(s), k, w);
    CandidatesByEntry(s, w, h);
    AppEntriesSum(s, s.roster, k, w, h);
  }

  /** The `$switch` keeps a row exactly when the label is not FURIA or LOUD, or names the player's `sigla`. */
  lemma AppKeepsIff(c: Candidate)
    ensures AppKeeps(c) <==>
      || c.user.preferredTeam !in {Some("FURIA"), Some("LOUD")}
      || (c.user.preferredTeam == Some("FURIA") && c.team.code == "FUR")
      || (c.user.preferredTeam == Some("LOUD") && c.team.code == "LOD")
  {
  }

  /**
    Over any joined rows, the application's `$match` and `$group` give one
    row per (user name, label) pair, whose count is the number of rows the
    `$switch` keeps with that key; a pair has a row exactly when some kept
    row carries it.
   */
  lemma AppRowsSpec(cs: seq<Candidate>)
    ensures Injective(AppRows(cs), RowKey)
    ensures forall x :: x in AppRows(cs) ==> x.count >= 1 && x.count == AppKept(cs, RowKey(x))
    ensures forall k :: HasKey(AppRows(cs), RowKey, k) <==> exists c :: c in cs && AppKeeps(c) && KeyOf(c) == k
  {
    var keys := AppKeys(cs);
    var gs := GroupCount(keys);
    RowsOfGroups(gs, MakeRow, RowKey, RowCount);
    forall x | x in AppRows(cs) ensures x.count == AppKept(cs, RowKey(x)) {
      AppKeysCount(cs, RowKey(x));
    }
    forall k ensures HasKey(AppRows(cs), RowKey, k) <==> exists c :: c in cs && AppKeeps(c) && KeyOf(c) == k {
      FlatMapMember(cs, (c: Candidate) => if AppKeeps(c) then [KeyOf(c)] else [], k);
      assert k in KeysOf(gs) <==> k in keys;
    }
  }

  /**
    The application's report: one row per (user name, label) pair, whose
    count is the number of linked players the `$switch` keeps; a row exists
    exactly when some user with that name and label reaches a kept team.
    Under the store's unique indexes the count is the number of roster
    entries that resolve to a kept pair with that key.
   */
  lemma AppPreferredSpec(s: Store)
    ensures Injective(AppPreferred(s), RowKey)
    ensures forall x :: x in AppPreferred(s) ==> x.count >= 1 && x.count == AppKept(Candidates(s), RowKey(x))
    ensures forall k :: HasKey(AppPreferred(s), RowKey, k) <==>
      exists u, ot :: u in s.users && Reaches(s, u, ot) && AppKeeps(Candidate(u, ot)) && KeyOf(Candidate(u, ot)) == k
    ensures Valid(s) ==> forall x :: x in AppPreferred(s) ==> x.count == AppEntries(s, s.roster, RowKey(x))
  {
    AppRowsSpec(Candidates(s));
    forall c: Candidate {
      CandidatesMember(s, c);
    }
    if Valid(s) {
      forall x | x in AppPreferred(s) ensures x.count == AppEntries(s, s.roster, RowKey(x)) {
        AppKeptByEntry(s, RowKey(x));
      }
    }
  }

  /**
    As written, the application's `$switch` falls back to the player's own
    `sigla`, so for a user whose label is neither FURIA nor LOUD (or who has
    none) every linked player counts as one of the preferred team.
   */
  lemma AppCountsAnyTeam(c: Candidate)
    requires c.user.preferredTeam !in {Some("FURIA"), Some("LOUD")}
    ensures AppKeeps(c)
  {
  }

  // ----- The setup script's version -----

  /**
    The official teams whose `nome_curto` equals the user's label and whose
    `sigla` equals the player's team's: the rows surviving the second lookup,
    its `$unwind` and the `$match`. When no team has that `nome_curto`, the
    preserved row has no `sigla` to compare and is dropped.
   */
  function ShortNameMatches(s: Store, c: Candidate): seq<OfficialTeam>
  {
    WithKey(TeamsNamed(s, c.user.preferredTeam), TeamCode, c.team.code)
  }

  function ShortNameKeys(s: Store, cs: seq<Candidate>): seq<(string, Option<string>)>
  {
    FlatMap(cs, (c: Candidate) => seq(|ShortNameMatches(s, c)|, _ => KeyOf(c)))
  }

  /** The second lookup, its `$match` and the `$group` of the setup script's query over the joined rows `cs`. */
  function ShortNameRows(s: Store, cs: seq<Candidate>): seq<PreferredRow>
  {
    ToRows(GroupCount(ShortNameKeys(s, cs)), MakeRow)
  }

  /** The setup script's preferred-team query (Q5). */
  function ShortNamePreferred(s: Store): seq<PreferredRow>
  {
    ShortNameRows(s, Candidates(s))
  }

  /** The number of (candidate, matching official team) pairs with key `k`. */
  function ShortNameKept(s: Store, cs: seq<Candidate>, k: (string, Option<string>)): nat
  {
    if |cs| == 0 then 0
    else (if KeyOf(cs[0]) == k then |ShortNameMatches(s, cs[0])| else 0) + ShortNameKept(s, cs[1..], k)
  }

  lemma {:induction false} RepeatCount<K>(n: nat, v: K, k: K)
    ensures multiset(seq(n, _ => v))[k] == if v == k then n else 0
  {
    if n > 0 {
      assert seq(n, _ => v) == seq(n - 1, _ => v) + [v];
      RepeatCount(n - 1, v, k);
    }
  }

  lemma {:induction false} ShortNameKeysCount(s: Store, cs: seq<Candidate>, k: (string, Option<string>))
    ensures multiset(ShortNameKeys(s, cs))[k] == ShortNameKept(s, cs, k)
    decreases |cs|
  {
    if |cs| > 0 {
      RepeatCount(|ShortNameMatches(s, cs[0])|, KeyOf(cs[0]), k);
      ShortNameKeysCount(s, cs[1..], k);
    }
  }

  /** The user's label names an official team (by `nome_curto`) with the same `sigla` as `ot`. */
  ghost predicate PrefersCodeOf(s: Store, u: User, ot: OfficialTeam)
  {
    u.preferredTeam.Some? && exists pt :: pt in s.teams && pt.shortName == u.preferredTeam && pt.code == ot.code
  }

  lemma ShortNameMatchesMember(s: Store, c: Candidate)
    ensures |ShortNameMatches(s, c)| > 0 <==> PrefersCodeOf(s, c.user, c.team)
  {
    var m := ShortNameMatches(s, c);
    if |m| > 0 {
      assert m[0] in m;
    }
    if PrefersCodeOf(s, c.user, c.team) {
      var pt :| pt in s.teams && pt.shortName == c.user.preferredTeam && pt.code == c.team.code;
      assert pt in m;
    }
  }

  /** Under unique team codes, a pair matches one team by label and code when the label names its code, and none otherwise. */
  lemma ShortNameMatchesUnique(s: Store, c: Candidate)
    requires Injective(s.teams, TeamCode)
    ensures |ShortNameMatches(s, c)| == if PrefersCodeOf(s, c.user, c.team) then 1 else 0
  {
    ShortNameMatchesMember(s, c);
    var named := TeamsNamed(s, c.user.preferredTeam);
    if c.user.preferredTeam.Some? {
      InjectiveWithKey(s.teams, TeamShortName, c.user.preferredTeam, TeamCode);
    }
    WithKeyUnique(named, TeamCode, c.team.code);
  }

  lemma {:induction false} ShortNameKeptSum(s: Store, cs: seq<Candidate>, k: (string, Option<string>), w: Candidate -> int)
    requires forall c :: w(c) == if KeyOf(c) == k then |ShortNameMatches(s, c)| else 0
    ensures ShortNameKept(s, cs, k) == SumOf(cs, w)
    decreases |cs|
  {
    if |cs| > 0 {
      ShortNameKeptSum(s, cs[1..], k, w);
    }
  }

  /** Roster entry `e` resolves to a pair with key `k` whose team's `sigla` is that of the team the label names. */
  ghost predicate ShortNameEntryKept(s: Store, e: RosterEntry, k: (string, Option<string>))
  {
    var c := EntryCandidate(s, e);
    c.Some? && PrefersCodeOf(s, c.value.user, c.value.team) && KeyOf(c.value) == k
  }

  /** The number of roster entries of `es` that Q5 counts under key `k`. */
  ghost function ShortNameEntries(s: Store, es: seq<RosterEntry>, k: (string, Option<string>)): nat
  {
    if |es| == 0 then 0 else (if ShortNameEntryKept(s, es[0], k) then 1 else 0) + ShortNameEntries(s, es[1..], k)
  }

  lemma {:induction false} ShortNameEntriesSum(s: Store, es: seq<RosterEntry>, k: (string, Option<string>),
                                               w: Candidate -> int, h: RosterEntry -> int)
    requires Injective(s.teams, TeamCode)
    requires forall c :: w(c) == if KeyOf(c) == k then |ShortNameMatches(s, c)| else 0
    requires forall e :: h(e) == EntryWeight(s, w, e)
    ensures ShortNameEntries(s, es, k) == SumOf(es, h)
    decreases |es|
  {
    if |es| > 0 {
      var c := EntryCandidate(s, es[0]);
      if c.Some? {
        ShortNameMatchesUnique(s, c.value);
      }
      ShortNameEntriesSum(s, es[1..], k, w, h);
    }
  }

  /**
    Under the store's unique indexes, the (joined row, matching team) pairs
    with key `k` are as many as the roster entries that resolve to a pair
    whose team's `sigla` is that of the team the label names.
   */
  lemma ShortNameKeptByEntry(s: Store, k: (string, Option<string>))
    requires Valid(s)
    ensures ShortNameKept(s, Candidates(s), k) == ShortNameEntries(s, s.roster, k)
  {
    var w := (c: Candidate) => if KeyOf(c) == k then |ShortNameMatches(s, c)| else 0;
    var h := (e: RosterEntry) => EntryWeight(s, w, e);
    ShortNameKeptSum(s, Candidates(s), k, w);
    CandidatesByEntry(s, w, h);
    ShortNameEntriesSum(s, s.roster, k, w, h);
  }

  /**
    Over any joined rows, the setup script's last stages give one row per
    (user name, label) pair with a label that is not null; its count is the
    number of (row, team named by the label with the row's `sigla`) pairs
    with that key, and a pair has a row exactly when some row with that key
    has a team whose `nome_curto` is the label and whose `sigla` is the row
    team's.
   */
  lemma ShortNameRowsSpec(s: Store, cs: seq<Candidate>)
    ensures Injective(ShortNameRows(s, cs), RowKey)
    ensures forall x :: x in ShortNameRows(s, cs) ==> x.count >= 1 && x.preferred.Some?
    ensures forall x :: x in ShortNameRows(s, cs) ==> x.count == ShortNameKept(s, cs, RowKey(x))
    ensures forall k :: HasKey(ShortNameRows(s, cs), RowKey, k) <==>
      exists c :: c in cs && PrefersCodeOf(s, c.user, c.team) && KeyOf(c) == k
  {
    var rows := ShortNameRows(s, cs);
    var keys := ShortNameKeys(s, cs);
    var gs := GroupCount(keys);
    var f := (c: Candidate) => seq(|ShortNameMatches(s, c)|, _ => KeyOf(c));
    RowsOfGroups(gs, MakeRow, RowKey, RowCount);
    forall k ensures HasKey(rows, RowKey, k) <==> exists c :: c in cs && PrefersCodeOf(s, c.user, c.team) && KeyOf(c) == k {
      FlatMapMember(cs, f, k);
      forall c: Candidate ensures k in f(c) <==> PrefersCodeOf(s, c.user, c.team) && KeyOf(c) == k {
        ShortNameMatchesMember(s, c);
        if |ShortNameMatches(s, c)| > 0 {
          assert f(c)[0] == KeyOf(c);
        }
      }
      assert k in KeysOf(gs) <==> k in keys;
    }
    forall x | x in rows ensures x.count == ShortNameKept(s, cs, RowKey(x)) {
      ShortNameKeysCount(s, cs, RowKey(x));
    }
    forall x | x in rows ensures x.preferred.Some? {
      assert HasKey(rows, RowKey, RowKey(x)) by {
        var i :| 0 <= i < |rows| && rows[i] == x;
      }
    }
  }

  /**
    The setup script's report: a row exists exactly when some user with that
    name and label reaches an official team whose `sigla` is that of a team
    whose `nome_curto` is the label; users without a label get no row.
    Under the store's unique indexes the count is the number of roster
    entries that resolve to such a pair with that key.
   */
  lemma ShortNamePreferredSpec(s: Store)
    ensures Injective(ShortNamePreferred(s), RowKey)
    ensures forall x :: x in ShortNamePreferred(s) ==> x.count >= 1 && x.preferred.Some?
    ensures forall x :: x in ShortNamePreferred(s) ==> x.count == ShortNameKept(s, Candidates(s), RowKey(x))
    ensures forall k :: HasKey(ShortNamePreferred(s), RowKey, k) <==>
      exists u, ot :: u in s.users && Reaches(s, u, ot) && PrefersCodeOf(s, u, ot) && KeyOf(Candidate(u, ot)) == k
    ensures Valid(s) ==> forall x :: x in ShortNamePreferred(s) ==> x.count == ShortNameEntries(s, s.roster, RowKey(x))
  {
    ShortNameRowsSpec(s, Candidates(s));
    forall c: Candidate {
      CandidatesMember(s, c);
    }
    if Valid(s) {
      forall x | x in ShortNamePreferred(s) ensures x.count == ShortNameEntries(s, s.roster, RowKey(x)) {
        ShortNameKeptByEntry(s, RowKey(x));
      }
    }
  }

  // ----- Where the two versions agree -----

  /**
    The teams with `nome_curto` FURIA and LOUD are exactly one each, with
    `sigla` FUR and LOD: the configuration the application's `$switch`
    hard-codes.
   */
  predicate SwitchMatchesStore(s: Store)
  {
    && |TeamsNamed(s, Some("FURIA"))| == 1 && TeamsNamed(s, Some("FURIA"))[0].code == "FUR"
    && |TeamsNamed(s, Some("LOUD"))| == 1 && TeamsNamed(s, Some("LOUD"))[0].code == "LOD"
  }

  /** For a FURIA or LOUD label, the `nome_curto` lookup keeps a pair exactly when the `$switch` does. */
  lemma SwitchAgrees(s: Store, c: Candidate)
    requires SwitchMatchesStore(s)
    requires c.user.preferredTeam == Some("FURIA") || c.user.preferredTeam == Some("LOUD")
    ensures |ShortNameMatches(s, c)| == if AppKeeps(c) then 1 else 0
  {
    var named := TeamsNamed(s, c.user.preferredTeam);
    assert named == [named[0]];
    assert ShortNameMatches(s, c) == if named[0].code == c.team.code then [named[0]] else [] by {
      WithKeyUnique(named, TeamCode, c.team.code);
    }
  }

  lemma {:induction false} KeysAgree(s: Store, cs: seq<Candidate>)
    requires SwitchMatchesStore(s)
    requires forall c :: c in cs ==> c.user.preferredTeam in {Some("FURIA"), Some("LOUD")}
    ensures ShortNameKeys(s, cs) == AppKeys(cs)
    decreases |cs|
  {
    if |cs| > 0 {
      var c := cs[0];
      SwitchAgrees(s, c);
      assert seq(|ShortNameMatches(s, c)|, _ => KeyOf(c)) == if AppKeeps(c) then [KeyOf(c)] else [];
      KeysAgree(s, cs[1..]);
    }
  }

  /** On a FURIA or LOUD key the two versions count the same joined rows. */
  lemma {:induction false} KeptAgree(s: Store, cs: seq<Candidate>, k: (string, Option<string>))
    requires SwitchMatchesStore(s)
    requires k.1 == Some("FURIA") || k.1 == Some("LOUD")
    ensures ShortNameKept(s, cs, k) == AppKept(cs, k)
    decreases |cs|
  {
    if |cs| > 0 {
      if KeyOf(cs[0]) == k {
        SwitchAgrees(s, cs[0]);
      }
      KeptAgree(s, cs[1..], k);
    }
  }

  /**
    Over any joined rows, when the store's FURIA and LOUD teams are the ones
    the application hard-codes, the two versions agree on every FURIA or
    LOUD key whatever the other users' labels: the key has a row in one
    exactly when it has one in the other, and the two rows have the same
    count.
   */
  lemma RowsAgreeOn(s: Store, cs: seq<Candidate>, k: (string, Option<string>))
    requires SwitchMatchesStore(s)
    requires k.1 == Some("FURIA") || k.1 == Some("LOUD")
    ensures HasKey(AppRows(cs), RowKey, k) <==> HasKey(ShortNameRows(s, cs), RowKey, k)
    ensures forall x, y :: x in AppRows(cs) && y in ShortNameRows(s, cs) && RowKey(x) == k && RowKey(y) == k ==>
      x.count == y.count
  {
    AppRowsSpec(cs);
    ShortNameRowsSpec(s, cs);
    KeptAgree(s, cs, k);
    var ka, kb := AppKeys(cs), ShortNameKeys(s, cs);
    RowsOfGroups(GroupCount(ka), MakeRow, RowKey, RowCount);
    RowsOfGroups(GroupCount(kb), MakeRow, RowKey, RowCount);
    AppKeysCount(cs, k);
    ShortNameKeysCount(s, cs, k);
    assert k in ka <==> multiset(ka)[k] > 0;
    assert k in kb <==> multiset(kb)[k] > 0;
  }

  /**
    When the store's FURIA and LOUD teams are the ones the application
    hard-codes, both versions of the query agree on the rows of every user
    labelled FURIA or LOUD, whatever the other users' labels.
   */
  lemma VariantsAgreeOn(s: Store, k: (string, Option<string>))
    requires SwitchMatchesStore(s)
    requires k.1 == Some("FURIA") || k.1 == Some("LOUD")
    ensures HasKey(AppPreferred(s), RowKey, k) <==> HasKey(ShortNamePreferred(s), RowKey, k)
    ensures forall x, y :: x in AppPreferred(s) && y in ShortNamePreferred(s) && RowKey(x) == k && RowKey(y) == k ==>
      x.count == y.count
  {
    RowsAgreeOn(s, Candidates(s), k);
  }

  /**
    When the store's FURIA and LOUD teams are the ones the application
    hard-codes and every user's label is one of the two, both versions of
    the query return the same rows.
   */
  lemma VariantsAgree(s: Store)
    requires SwitchMatchesStore(s)
    requires forall u :: u in s.users ==> u.preferredTeam in {Some("FURIA"), Some("LOUD")}
    ensures ShortNamePreferred(s) == AppPreferred(s)
  {
    forall c | c in Candidates(s) ensures c.user.preferredTeam in {Some("FURIA"), Some("LOUD")} {
      CandidatesMember(s, c);
    }
    KeysAgree(s, Candidates(s));
  }
}
