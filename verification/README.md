# Cartola store model

A Dafny model of the data layer of a small fantasy-football application
built on MongoDB. The application keeps five collections:

| collection | Dafny datatype | notes |
|---|---|---|
| `usuario` | `Store.User` | `email` carries a unique index; `time_preferido` (`preferredTeam`) may be null |
| `time_oficial` | `Store.OfficialTeam` | `sigla` (`code`) carries a unique index; `nome_curto` (`shortName`) is only set by the seed data |
| `jogador` | `Store.Player` | `time_id` (`teamId`) may be null |
| `time_usuario` | `Store.UserTeam` | a fantasy team owned by a user (`usuario_id`, `ownerId`) |
| `time_usuario_jogador` | `Store.RosterEntry` | the pair (`time_usuario_id`, `jogador_id`) carries a unique index |

The whole database is one immutable `Store` value, with each collection a
sequence in insertion order.

The writes of the interactive application are pure state transitions
(module `Registration`). Each one returns the next store together with the
new `_id` or the reason it refused the write. A refused write leaves the
store unchanged.

The read queries are pure functions over the store:

- `Listings`: players with their official team.
- `Rosters`: user teams with their players.
- `Reports`: counts per team and position, and players without a team.
- `Joins`: the four joins from users to the official teams of their roster players, and their count per roster entry.
- `Preferred`: how many roster players belong to each user's preferred team.
- `Table`: the table printer's outcome and column widths.

Each query is written once, as the MongoDB pipeline computes it:

- `$lookup` followed by `$unwind` is a flat-map over key selections.
- `$group` with `$sum: 1` is `Grouping.GroupCount`.
- `$sort` is a stable insertion sort on a BSON-like key (`Ordering.Key`).

The contracts and lemmas then relate each query to a direct description
over the collections. That description covers:

- the rows each query must hold, and how many;
- which records it drops;
- the order of its rows;
- what the counts add up to.

The setup script (`setup_database.py`) and the shell script (`script.js`)
insert the same seed data and run the same five queries, Q1 to Q5. One
definition serves both, and the table below cites both files. The
application's own queries differ from Q2 and Q5:

- Its user-team listing is a left join, where Q2 is an inner join.
- Its preferred-team query uses a hard-coded `$switch`, where Q5 looks teams up by `nome_curto`.

Each of these appears as a separate definition. A lemma relates the pair.

MongoDB sorts null before every string, so rows with a null team or
player come first.

## Model

| member | source | states |
|---|---|---|
| Collections.NextId | app.py:42-47 | The new `_id` is 1 for an empty collection, otherwise one more than an existing id that is the largest; it differs from every existing id |
| Store.TeamOf | app.py:469-488 | A player's team is null exactly when its `time_id` is null or names no official team; otherwise it is a stored team with that id |
| Store.TeamsOfResolved | app.py:469-482 | Under unique team ids the team lookup of a player yields at most one team, exactly the one its `time_id` resolves to |
| Registration.RegisterUser | app.py:92-162 | Refused, leaving the store unchanged, when name, email or password is blank, or with a duplicate-key error when the email is taken; otherwise exactly one user is appended, with a fresh id and a blank phone or preferred team stored as null; a valid store stays valid, with ids and emails unique |
| Registration.RegisterOfficialTeam | app.py:164-196 | The code is stored upper-cased; refused unchanged when name or code is blank or the upper-cased code is taken; otherwise exactly one team with a fresh id and no `nome_curto` is appended; a valid store stays valid, with ids and codes unique |
| Registration.RegisterPlayer | app.py:198-249 | Refused unchanged only when name or position is blank; otherwise one player with a fresh id and the given team reference, checked against nothing, is appended; a valid store stays valid |
| Registration.RegisterPlayerDanglingTeam | app.py:226-244 | A player can be stored with a `time_id` naming no official team |
| Registration.CreateUserTeam | app.py:251-299 | Refused unchanged when there are no users, the name is blank or no user has the owner id; otherwise exactly one user team with a fresh id is appended; a valid store stays valid |
| Registration.AddRosterEntry | app.py:301-426 | Refused unchanged when no user team with an existing owner is listed, the user team or the player is missing, or the pair is already on the roster; otherwise exactly one entry with a fresh id is appended; a valid store stays valid, with entry ids and (user team, player) pairs unique |
| Registration.CreateUserTeamKeepsReferences | app.py:284-295 | Creating a user team keeps every roster entry's user team resolvable and adds an owner that exists |
| Registration.RegisterKeepsReferences | app.py:92-249 | Registering a user, an official team or a player never breaks a checked reference |
| Registration.RegisterUserTwice | setup_database.py:62 | After a user registers, exactly one user has that email, and registering the email again is refused and changes nothing |
| Registration.AddRosterEntryTwice | app.py:404-412 | Adding the same player to the same user team again is refused and changes nothing; the pair is on the roster once |
| Registration.EmptyStore | reset.py:39-65 | After every collection is dropped, the store satisfies the indexes and every collection's next id is 1 |
| Listings.JoinPlayersExact | setup_database.py:152-165 | Under unique team ids the left join emits exactly one row per player, in store order, with the name of its resolved team or null |
| Listings.ListPlayersSpec | app.py:468-494 | The application's player listing keeps every player exactly once; the team is null exactly when `time_id` does not resolve; rows are ordered by player name |
| Listings.PlayersWithTeamsSpec | setup_database.py:151-179 | Q1 keeps every player exactly once with a null team when unresolved, ordered by team name (null first) and then player name |
| Listings.DanglingTeamListedAsNull | script.js:83-108 | A player whose `time_id` names no team is listed by Q1 with a null team, as a free agent is |
| Rosters.TeamRowsLeftSpec | app.py:508-557 | In the application's listing a user team with an owner gives one row per roster entry, or exactly one row with null player and position when it has none; a team whose owner is missing gives no row |
| Rosters.InnerIsLeftWithoutNulls | setup_database.py:184-225 | Q2 holds exactly the application listing's rows that name a player, each as often; the inner join drops user teams with no entries |
| Rosters.RostersWithPlayersSpec | script.js:114-152 | Under the unique indexes Q2 has one row per roster entry whose user team, owner and player all resolve, sorted by user-team and player name, and every row names a player and position |
| Reports.PositionCountsSpec | app.py:595-629 | The position report excludes players with a null or unresolvable `time_id`; each (team name, position) appears once with count at least 1 equal to its players; counts add up to the players with a resolved team; rows are ordered by team name ascending, then count descending |
| Reports.FreeAgentsOf | setup_database.py:268-271 | The free-agent report holds exactly the players whose `time_id` is null |
| Reports.ReportsCoverPlayers | setup_database.py:230-271 | Free agents, position counts and players with a dangling `time_id` account for every player exactly once; with no dangling reference, Q3 and Q4 cover all players |
| Reports.NullJoinRows | script.js:83-104 | The players-to-teams left join gives a null team exactly to the free agents and to the players with a dangling `time_id`, counted over any player sequence |
| Reports.NullTeamRowsAreFreeAgents | script.js:83-108 | Q1's rows with a null team are the free agents plus the players with a dangling `time_id` |
| Joins.CandidatesMember | app.py:658-694 | The four joins of the preferred-team query yield exactly the (user, official team) pairs linked through a user team, a roster entry and a player |
| Joins.CandidatesByEntry | app.py:658-694 | Under the unique indexes, summing any weight over the joined (user, official team) pairs equals summing over the roster entries, each entry weighing its one pair (found through its user team's owner and its player's team) or nothing |
| Preferred.AppPreferredSpec | app.py:695-728 | The application's query has one row per (user name, label) pair, with count at least 1 equal to the linked players the `$switch` keeps; under the unique indexes that count is the number of roster entries whose user and player's team form a kept pair with that key; a row exists exactly when some such user reaches a kept team, so users with no match have no row |
| Preferred.AppKeptByEntry | app.py:653-720 | Under the unique indexes, the pairs the `$switch` keeps for a (user name, label) are counted exactly by the roster entries that resolve to such a pair |
| Preferred.AppRowsSpec | app.py:695-720 | Over any sequence of (user, official team) pairs, the group-and-count stage gives one row per (user name, label) with count at least 1 equal to the pairs the `$switch` keeps, and a row exactly when some pair is kept |
| Preferred.ShortNameRowsSpec | script.js:242-275 | Over any sequence of (user, official team) pairs, Q5's `nome_curto` lookup gives one row per (user name, label), never with a null label, counting the pairs whose team's code is that of a team with the label as short name; a row exactly when such a pair exists |
| Preferred.AppCountsAnyTeam | app.py:698-705 | A label other than FURIA or LOUD, or none, falls back to the player's own code, so every linked player is kept |
| Preferred.ShortNamePreferredSpec | setup_database.py:312-346 | Q5 has one row per (user name, label), with a label that is not null; the count is the number of linked players whose code is that of a team whose `nome_curto` is the label; a label that names no team gives no row; under the unique indexes the count is the number of roster entries resolving to a pair whose team's code is the label's team's code |
| Preferred.ShortNameKeptByEntry | setup_database.py:312-346 | Under the unique indexes, Q5's count for a (user name, label) equals the number of roster entries whose player's team has the code of the team with that short name |
| Preferred.ShortNameMatchesUnique | script.js:241-259 | Under unique team codes, the `nome_curto` lookup joined on the code matches one team exactly when the player's team has the code of a team named by the label, and none otherwise |
| Preferred.VariantsAgree | app.py:698-703 | When the FURIA and LOUD teams are the only teams with those short names, with codes FUR and LOD, and every user is labelled FURIA or LOUD, both versions return the same rows |
| Preferred.RowsAgreeOn | app.py:698-703 | For a FURIA or LOUD label, when those teams are the only ones with those short names and have codes FUR and LOD, the `$switch` grouping and the `nome_curto` grouping of any pair sequence have a row for the key together, with equal counts |
| Preferred.VariantsAgreeOn | setup_database.py:312-346 | Under the same condition on the teams alone, the application's query and Q5 agree on every FURIA or LOUD key of any store: same presence, same count |
| Seed.SeedValid | setup_database.py:80-135 | The seed data satisfies the unique indexes and every checked reference resolves |
| Seed.SeedFreeAgents | script.js:56-61 | On the seed data the free-agent report yields only Jogador D |
| Seed.SeedPreferred | setup_database.py:106-107 | On the seed data both versions of the preferred-team query yield (Eduardo Fontes, FURIA, 2) and (Larissa, LOUD, 1) |
| Seed.NoLabelCounted | app.py:695-712 | For a user with no preferred team linked to one player of a team that has a `nome_curto`, the application's query reports one player of the preferred team, while Q5 gives no row |
| Seed.NoLabelExample | script.js:242-275 | A concrete store on which the two versions disagree |
| Table.PrintTableOutcome | app.py:61-85 | No rows print only "Nenhum resultado encontrado."; otherwise the table fails exactly when some row has more cells than headers, naming the first such row, and succeeds with a header, a rule and one line per row |
| Table.ColumnWidths | app.py:67-72 | Each column's width is the largest of its header's length and the lengths of the cells in that column, with null shown as "NULL"; a row with more cells than headers stops with an index error at the first such row |
| Table.ColumnWidthSpec | setup_database.py:362-367 | A column's width bounds its header and every cell in it, and equals one of them |
| Table.TableAligned | setup_database.py:369-380 | The header line, the rule and every full row line have the same length |
| Table.IntRoundTrip | app.py:70 | The decimal rendering of an integer reads back as the same integer |
| Table.LJust | app.py:74 | Padding keeps the text as a prefix, adds only spaces and never truncates |
| Grouping.GroupCount | setup_database.py:244-258 | `$group` with `$sum: 1` yields distinct keys, each count at least 1 and equal to the key's occurrences, and the counts add up to the number of input rows |
| Sorting.SortBy | setup_database.py:175 | `$sort` yields a permutation of its input ordered by the key |
| Ordering.KeysLeTrans | setup_database.py:260 | The compound sort order is transitive, so a sorted result is ordered between any two rows |

## Left out

- Connection setup and the environment configuration are I/O and are not modelled: `get_database`, `close_database` and `MONGODB_URI`.
- The menus, `input()` prompting, `print` output and screen clearing are not modelled. Each write takes field values that have already been trimmed.
- The application's table printer writes an empty line after the table. The setup script's printer does not. The model produces the lines before that empty line.
- The birth date is an opaque string. The `strptime` format check is a foreign library call, so a malformed date is never refused.
- The menu mapping of sex options is not modelled. Neither is the parsing of typed ids: a non-numeric id, and "0" or "" meaning no team. Each write takes the parsed value.
- Python's `str.upper` covers all of Unicode. `Registration.Upper` upper-cases ASCII letters only.
- `listar_usuarios` and `listar_times_oficiais` are plain `find` calls sorted by name. They are not modelled.
- The option lists printed before a write are not modelled. The one exception is the user-team listing that gates adding a roster entry: it is empty when no user team has an existing owner, and that case is modelled.
- Exceptions other than the duplicate-key error are only printed by the application. They are not modelled.
- The drop and create calls of the setup scripts are not modelled. Neither is reset.py beyond the empty store it leaves.
- Only the unique indexes are kept from the setup scripts.
- BSON ordering is modelled for null, integers and strings only. Strings are ordered by code point, with no collation.
- MongoDB's `$lookup` matches a null local field to documents that lack the foreign field. The model matches only equal present values. This matters for Q5 on stores whose teams were registered by the application, since those teams have no `nome_curto`. For the same reason Seed.NoLabelCounted requires the linked player's team to have a `nome_curto`: without one, MongoDB would let Q5 keep the player under a null label.
- The order of `$group` output is unspecified. It is modelled as first-appearance order.
- The order of `$sort` ties is modelled as stable insertion order.
- Id allocation by max + 1 is not safe under concurrent writes. The model is sequential.
- The unique index on the email also holds across writes other than registration. The model enforces it only where the application writes.
- Registration.RegisterUser: the date check that can refuse a user before the insert is not modelled, because the date is opaque.

## Findings

| source | as written | input that shows it | evidently intended | confidence | as-written member | corrected member |
|---|---|---|---|---|---|---|
| app.py:695-707 | The `$switch` maps only FURIA and LOUD. Its default is the player's own `sigla`, so the `$match` keeps every linked player of a user whose label is anything else or null | A user with no preferred team owning a user team with one player of FUR gets a row (name, null, 1) | Count only players of the team the label names, and give no row when the label names no team, as Q5 does through `nome_curto` | medium, not executed | Seed.NoLabelCounted | Preferred.ShortNameRowsSpec |
