# KW-BB-Helper league core in Dafny

KW-BB-Helper runs a league of teams split into divisions, in two parts.

`generate_league.py` groups the teams of `teams_info.json` by their "group" field. It gives every division of at
least two teams a round-robin schedule (the circle method, with a "BYE" placeholder for odd divisions). It can also
build one extra schedule over all teams ("cross-division") and count the teams and matches scheduled.

`update_classification.py` reads each match sheet of each date:

- It derives the result and points of both sides and stores them in that date's team map.
- It seeds a team map with every team named in the fixture sheets.
- It adds every entry to its team: points, touchdowns, and wins, draws or losses.
- It sorts the teams by the configured criteria. Without divisions it builds one table for the whole league
  (`generate_classification_table`). With divisions both generators build one table per division, and no
  whole-league table is built.

The model follows that structure, one module per concern:

| module | file | models |
|---|---|---|
| `Wrappers` | wrappers.dfy | `Option`, for absent values |
| `Seqs` | seqs.dfy | distinctness of sequences |
| `PyDict` | pydict.dfy | a Python dict: a map plus its key insertion order, which decides iteration and sort tie-breaks |
| `Scheduler` | scheduler.dfy | `generate_division_schedule`: the definitions and the looping method |
| `RoundRobin` | round_robin.dfy | what the circle method guarantees: round sizes, no team twice in a round, every pair exactly once |
| `Divisions` | divisions.dfy | `load_teams_with_divisions`, `generate_cross_division_matches`, the division loop and counting of `generate_league` |
| `Config` | config.dfy | `load_settings` and the default sorting criteria |
| `Results` | results.dfy | `process_date_folder`: results, points, and which sides of a sheet are written |
| `Standings` | standings.dfy | seeding from fixtures and aggregation into per-team totals |
| `Ranking` | ranking.dfy | `sort_key` and the stable `sorted` |
| `Classification` | classification.dfy | `generate_classification_table` and `generate_overall_classification` |

### How the model is built

- **Loops are methods.** Each loop that builds a value (the schedule loop, the grouping fold, the seeding and
  aggregation loops, the division loops) is a `method` with loop invariants. Each such method is proved equal to a
  specification function: `Schedule`, `Grouped`, `Seeded`, `Tally`, `Standing`. The lemmas then state what the
  source promises about those functions.
- **`sorted` is insertion.** It is modelled as an insertion sort by the same key. It is proved to be a permutation,
  ordered by Python's tuple comparison, and stable.
- **Stable order is unique.** A stable sort by a total preorder has exactly one result, so this characterizes
  Python's result completely.

### Behaviour of the code worth noting

- `generate_division_schedule` raises no error for fewer than two teams: zero teams give no rounds, and one team gives
  one empty round. Only the caller in `generate_league` skips such divisions.
- Divisions come only from the "group" field. A missing field gives "Unknown". There is no random or even split.
- The cross-division schedule runs the circle method over all teams together. It therefore also pairs teams of the
  same division, and every pair of distinct teams meets exactly once.
- There is no combined table over all divisions. `generate_overall_classification` produces one table per division.

## Model

| member | source | states |
|---|---|---|
| Scheduler.Rotate | generate_league.py:43 | The first team stays at seat 0, the last team moves to seat 1, and the others move one seat on. |
| Scheduler.Rotated | generate_league.py:35-43 | The seating of round r is r rotations of the padded list, so seat 0 always holds the first team. |
| Scheduler.Pairs | generate_league.py:37-41 | The matches of the first i seats, in seat order: seat i-1 against seat n-i, with pairs that hold "BYE" left out. |
| Scheduler.RoundOf | generate_league.py:36-42 | One round: the matches of all n/2 seat pairs of a seating. |
| Scheduler.Rounds | generate_league.py:34-43 | The first k rounds, round r built from the seating after r rotations. |
| Scheduler.MatchCount | generate_league.py:134 | The number of matches of a schedule, summed over its rounds. |
| Scheduler.Padded | generate_league.py:29-32 | An odd list gets "BYE" appended at its end and an even list is unchanged, so the length becomes even. |
| Scheduler.RotatePermutes | generate_league.py:43 | One rotation keeps the first team in place and only rearranges the teams. |
| Scheduler.Schedule | generate_league.py:27-45 | The number of rounds is 0 for no teams, n for an odd n, and n-1 for an even n. |
| Scheduler.PairRound | generate_league.py:36-42 | The inner loop pairs seat i with seat n-1-i for i < n/2, skipping every pair that holds "BYE". |
| Scheduler.GenerateDivisionSchedule | generate_league.py:27-45 | The loop of rounds and rotations gives exactly the schedule `Schedule` specifies. |
| RoundRobin.RotatedSeat | generate_league.py:43 | After r rotations, seat k holds the team that started at seat `Seat(n, r, k)`. Seat 0 never moves. |
| RoundRobin.RotatedDistinct | generate_league.py:43 | Rotating a list of distinct teams keeps them distinct. |
| RoundRobin.MeetingRoundExists | generate_league.py:35-43 | Any two seats face each other (their current seats add up to n-1) in some round before round n-1. |
| RoundRobin.OppositeOnce | generate_league.py:35-43 | Two seats face each other in at most one round. |
| RoundRobin.PairsOccurrences | generate_league.py:37-41 | The first i pairings of a round contain a pair of real teams once if their seats add up to n-1 and one seat is below i, else never. |
| RoundRobin.PairsDistinct | generate_league.py:37-41 | No team appears twice among the pairs of one round. |
| RoundRobin.PaddedDistinct | generate_league.py:29-32 | Padding distinct real teams keeps them distinct, and "BYE" can only sit at the appended seat. |
| RoundRobin.EveryPairMeetsOnce | generate_league.py:27-45 | For distinct teams without "BYE", every pair of distinct teams is scheduled in exactly one match of the whole schedule. |
| RoundRobin.RoundTeams | generate_league.py:40-41 | Every team in a round is one of the division's teams, and no match holds "BYE". |
| RoundRobin.RoundDistinct | generate_league.py:35-42 | No team plays twice in the same round. |
| RoundRobin.RoundMatches | generate_league.py:35-42 | Every match of a round pairs two different teams of the division. |
| RoundRobin.RoundSize | generate_league.py:35-42 | Every round has floor(n/2) matches. |
| RoundRobin.PairsSeatIn | generate_league.py:37-41 | A real team at seat k plays in the first i seat pairs if and only if its seat pair is among them and its opponent is not "BYE". |
| RoundRobin.ByeRound | generate_league.py:29-43 | In an odd division every team sits out exactly one round: it misses round r if and only if r is the one round where it faces the "BYE" seat. |
| RoundRobin.TotalMatches | generate_league.py:27-45 | A division of n teams gets n(n-1)/2 matches in all. |
| RoundRobin.FourTeams | test_scripts.py:172-182 | Four teams give 3 rounds of 2 matches (6 in all), shown round by round. |
| RoundRobin.ThreeTeams | generate_league.py:29-43 | Three teams give 3 rounds of one match each, since the team facing "BYE" rests. |
| Divisions.GroupOf | generate_league.py:18 | A team's group is its "group" field, or "Unknown" when the field is missing. |
| Divisions.Names | generate_league.py:17 | The team names, in file order. |
| Divisions.Grouped | generate_league.py:16-22 | The fold over the file: each team, in order, is appended to its group's list, which is created when new. |
| Divisions.GroupOrder | generate_league.py:19-20 | Reference definition: the groups in order of their first team. |
| Divisions.Members | generate_league.py:21 | Reference definition: a group's teams, in file order. |
| Divisions.Concat | generate_league.py:171-173 | The lists of the given groups joined in order. |
| Divisions.AllTeams | generate_league.py:171-173 | Every division's teams, divisions in insertion order, as `all_teams.extend` over `divisions.values()` builds them. |
| Divisions.DivisionFixtures | generate_league.py:107-115 | Each division of at least two teams, in order, with its circle-method schedule. Smaller divisions are left out. |
| Divisions.FixtureTeams | generate_league.py:135 | The sum of the non-"BYE" team counts of the divisions that get fixtures. |
| Divisions.FixtureMatches | generate_league.py:134-136 | The sum of the matches of all division fixtures. |
| Divisions.CrossFixtures | generate_league.py:141-142 | The schedule over all teams when it is requested and there is more than one division. Otherwise there is none. |
| Divisions.LoadedDivisions | generate_league.py:11-25 | The divisions are a valid ordered map whenever a file is present. A missing teams file gives no divisions. |
| Divisions.LoadTeamsWithDivisions | generate_league.py:11-25 | The grouping loop builds exactly `LoadedDivisions` of the file. |
| Divisions.GroupedSpec | generate_league.py:16-22 | The groups appear in order of their first team, and each group lists its teams in file order. |
| Divisions.GroupOrderIn | generate_league.py:17-21 | A group exists if and only if some team carries it, "Unknown" standing for a missing field. |
| Divisions.MembersIn | generate_league.py:17-21 | A team is in a group's list if and only if some record of that name carries that group. |
| Divisions.OwnDivision | generate_league.py:17-21 | With distinct names, each team's group exists and is the only group whose list holds that team. |
| Divisions.OnlyOwnGroup | generate_league.py:17-21 | With distinct names, a team is in no other group's list. |
| Divisions.MembersDistinct | generate_league.py:16-22 | With distinct names, no group lists a team twice. |
| Divisions.GroupedPermutes | generate_league.py:16-22 | Across all groups, every team of the file appears exactly as often as in the file. |
| Divisions.GroupingExample | generate_league.py:18 | A team without a "group" goes to "Unknown". Groups keep first-appearance order and members keep file order. |
| Divisions.GenerateCrossDivisionMatches | generate_league.py:169-175 | The cross schedule is the circle method over all teams, division after division in map order. |
| Divisions.CrossEveryPairMeetsOnce | generate_league.py:169-175 | In the cross schedule, every pair of distinct teams of the file meets exactly once. Same-division pairs are included. |
| Divisions.RealTeams | generate_league.py:135 | The count of non-"BYE" names is at most the length, and equals it when no team is called "BYE". |
| Divisions.Plan | generate_league.py:58-66 | `generate_league` produces nothing if and only if there are no divisions or the match template is missing. |
| Divisions.FixturesSkip | generate_league.py:107-115 | A division gets fixtures if and only if it has at least two teams, and then its fixtures are its circle-method schedule. |
| Divisions.DivisionPairsMeetOnce | generate_league.py:107-115 | Within a division's fixtures, every two distinct teams of that division meet exactly once. |
| Divisions.ScheduleDivisions | generate_league.py:107-138 | The division loop builds the fixtures `DivisionFixtures` specifies, and counts its teams and matches. |
| Divisions.DivisionTotals | generate_league.py:134-136 | Teams count only for divisions of two or more. Each such division of n teams adds n(n-1)/2 matches. |
| Divisions.CrossDivisionFixtures | generate_league.py:141-165 | The cross schedule is built only on request with more than one division, and its matches are counted. |
| Divisions.BuildLeague | generate_league.py:58-167 | The whole run after loading gives exactly `Plan` of the divisions. |
| Divisions.GenerateLeague | generate_league.py:47-167 | Loading then building gives `Plan` of the loaded divisions. |
| Divisions.LeagueTotals | generate_league.py:105-167 | The reported totals are the teams of divisions of two or more, and the sum of n(n-1)/2 over those divisions. On request with several divisions, N(N-1)/2 is added for all N teams. |
| Config.LoadSettings | update_classification.py:7-20 | A present file is used as is. A missing one gives win 3, draw 1, lose 0 and the three default criteria. |
| Config.SortingCriteria | update_classification.py:199-203 | The file's criteria are used when present, otherwise points, touchdowns, wins, all descending. |
| Config.DefaultPoints | update_classification.py:13-20 | Without a file every result has a value (3, 1, 0), and the criteria are exactly the three defaults. |
| Results.Played | update_classification.py:39-44 | A sheet counts as played when at least one of its two score cells is filled. |
| Results.TeamOf | update_classification.py:31-35 | The team named in a side's column. |
| Results.RivalOf | update_classification.py:67-78 | A side's rival is the team of the other column. |
| Results.ScoreOf | update_classification.py:46-50 | A side's touchdowns are its score, or 0 when its cell is empty. |
| Results.ResultOf | update_classification.py:52-58 | A side's result follows from comparing the two scores. |
| Results.EntryOf | update_classification.py:61-69 | A side's entry holds its touchdowns, its result, its rival, and the points-table value of its result. |
| Results.Writes | update_classification.py:60-80 | A sheet writes a side if it was played, the side is not "nan" and its result is in the points table. For C, B's lookup must not have failed first. |
| Results.ApplyRecord | update_classification.py:43-80 | One sheet: an unplayed one changes nothing, and a failed lookup for B stops before any write. Otherwise B is written if named, then C if it is named and its lookup succeeds. |
| Results.Outcomes | update_classification.py:52-58 | B wins if and only if its score is higher, loses if and only if lower, draws if and only if equal. C gets the mirrored result. |
| Results.OutcomesSwap | update_classification.py:52-58 | Swapping the scores swaps the results. A win always faces a loss and a draw faces a draw. |
| Results.WriteSide | update_classification.py:60-80 | Writing a named side adds or replaces only that team's entry (own score, result, rival, points) and keeps the order of the other keys. |
| Results.ApplyUnwritten | update_classification.py:42-44 | A sheet that writes neither side leaves the date's map unchanged. This covers a sheet without scores. |
| Results.ApplyEntries | update_classification.py:60-80 | A written side holds its own entry, with the other side as rival. A failed lookup for B writes neither side, and a failed lookup for C keeps B's entry. |
| Results.ApplyKeys | update_classification.py:60-80 | After a sheet, the map has the old teams plus at most the sheet's two teams, never "nan". |
| Results.ApplyUnchanged | update_classification.py:60-80 | A team not on the sheet keeps its entry. |
| Results.ApplyOrder | update_classification.py:60-80 | Processing a sheet only appends keys and never reorders earlier ones. |
| Results.ApplyConsistent | update_classification.py:60-80 | Every stored entry holds win, lose or draw, with exactly the value the points table gives that result. |
| Results.ProcessAll | update_classification.py:26-84 | Processing the sheets keeps every team already present, and never adds or changes a "nan" entry. |
| Results.UnplayedUnchanged | update_classification.py:42-44 | A date whose sheets are all unplayed leaves the map unchanged. |
| Results.ProcessRecord | update_classification.py:27-84 | The body for one sheet computes `ApplyRecord`. |
| Results.ProcessDateFolder | update_classification.py:22-84 | The loop over a date's sheets computes `ProcessAll`. |
| Standings.Named | update_classification.py:173 | `team and team != "nan"`: a name that is present, not empty and not "nan". |
| Standings.SeedTeam | update_classification.py:173-175 | A named team is added at zero unless it is already present. |
| Standings.Seeded | update_classification.py:164-180 | Seeding visits the sheets in order, side B before side C on each. |
| Standings.InSheets | update_classification.py:171-178 | The teams that some sheet names. |
| Standings.Flatten | update_classification.py:183-184 | All (team, entry) pairs of the given dates: dates in order, and each date's teams in order. |
| Standings.AllEntries | update_classification.py:183-184 | All (team, entry) pairs of the league, in the order in which the nested loop visits them. |
| Standings.AddEntry | update_classification.py:188-196 | The `+=` updates for one entry: points and touchdowns added, and a win, draw or loss counted. |
| Standings.Tally | update_classification.py:183-196 | Aggregation: each entry, in order, is added to its team, and a team met for the first time starts at zero. |
| Standings.EntriesFor | update_classification.py:183-184 | Reference definition: a team's own entries, in order. |
| Standings.Sums | update_classification.py:188-196 | Reference definition: the totals of a list of entries. Points and touchdowns are summed, and "win", "draw" and any other result are counted. |
| Standings.SeededOrder | update_classification.py:164-180 | Seeding only appends teams: the teams already present keep their places, first. |
| Standings.TallyOrder | update_classification.py:185-186 | Aggregation only appends teams: the seeded teams keep their places, first. |
| Standings.SeededKeys | update_classification.py:164-180 | After seeding, a team is present if and only if it was already there or some sheet names it (not None, "" or "nan"). |
| Standings.SeededValues | update_classification.py:173-178 | Seeding never overwrites. An existing team keeps its line and a new one starts at zero. |
| Standings.SeedFromFixtures | update_classification.py:164-180 | The seeding loop builds exactly `Seeded` from an empty map. |
| Standings.ResultsPartition | update_classification.py:191-196 | Wins ("win"), draws ("draw") and losses (anything else) add up to the number of entries. |
| Standings.TallyKeys | update_classification.py:183-186 | After aggregation, a team is present if and only if it was seeded or has an entry. |
| Standings.TallySpec | update_classification.py:183-196 | A team's line is its starting line plus its entries: points and touchdowns summed, results counted. |
| Standings.TallyCounts | update_classification.py:191-196 | Each entry adds exactly one to wins, draws or losses. |
| Standings.UnplayedZero | update_classification.py:164-196 | A seeded team with no entry ends with all zeros. |
| Standings.AddToTeam | update_classification.py:188-196 | One entry is added to an existing team's line and nothing else changes. |
| Standings.Aggregate | update_classification.py:182-196 | The nested loop over dates and teams computes `Tally` of all entries, in date then team order. |
| Ranking.Component | update_classification.py:208 | One criterion's part of the key: the field's value, negated when the order is "desc". |
| Ranking.LexLess | update_classification.py:207-212 | Python tuple `<`: the first differing component decides, and a proper prefix is smaller. |
| Ranking.Key | update_classification.py:205-210 | A row's key is the sort key of its statistics. |
| Ranking.Ordered | update_classification.py:212 | No row has a key smaller than that of an earlier row. |
| Ranking.Insert | update_classification.py:212 | A row is placed in front of the first row whose key is greater, and after all rows with an equal key. |
| Ranking.Sorted | update_classification.py:212 | The rows are inserted one by one, in input order. |
| Ranking.WithKey | update_classification.py:212 | The rows with a given key, in their order, which is used to state stability. |
| Ranking.FieldValue | update_classification.py:208 | `get(field, 0)` reads the named statistic and gives 0 for any other name. |
| Ranking.SortKey | update_classification.py:205-210 | The key has one component per criterion, in order: the field's value, negated for "desc". |
| Ranking.ComponentOrder | update_classification.py:208 | For "desc", a smaller component means a larger field value. For any other order it means a smaller one. |
| Ranking.LexIrreflexive | update_classification.py:207-212 | Python tuple comparison never ranks a key below itself. |
| Ranking.LexTransitive | update_classification.py:207-212 | Python tuple comparison is transitive. |
| Ranking.LexTotal | update_classification.py:207-212 | Of two different keys, one is always smaller. |
| Ranking.InsertPermutes | update_classification.py:212 | Inserting a row adds exactly that row. |
| Ranking.InsertOrdered | update_classification.py:212 | Inserting a row into an ordered table keeps it ordered. |
| Ranking.InsertStable | update_classification.py:212 | The inserted row goes after every row with an equal key. |
| Ranking.SortedPermutes | update_classification.py:212 | The sorted table holds exactly the rows of the input, counting repeats. |
| Ranking.SortedOrdered | update_classification.py:212 | No row of the sorted table has a key smaller than that of an earlier row. |
| Ranking.SortedStable | update_classification.py:212 | Rows with equal keys keep their input order: for every key, the sorted rows with that key equal the input rows with that key, in order. |
| Classification.Totals | update_classification.py:162-196 | The team map is seeded from the sheets, then every entry is added to it. |
| Classification.Standing | update_classification.py:205-212 | The team map's items, sorted by the criteria. |
| Classification.SheetsOf | update_classification.py:239-240 | The sheets of a division's fixtures folder, or none when the folder does not exist. |
| Classification.TotalsOrder | update_classification.py:164-196 | The team map lists the seeded teams first, in seeding order. Teams first met in the entries come after them, so seeded teams win ties. |
| Classification.TotalsSpec | update_classification.py:162-196 | A team is in the map if and only if a sheet names it or it has an entry. Its line is the sum of its entries. |
| Classification.StandingRows | update_classification.py:159-212 | A row (team, line) is in the table if and only if the team is named or played, and the line is the sum of its entries. |
| Classification.StandingOnce | update_classification.py:183-212 | No team appears twice in the table. |
| Classification.StandingSorted | update_classification.py:198-212 | The table is ordered by the criteria. Ties keep the team map's insertion order. |
| Classification.StandingCounts | update_classification.py:191-196 | In the table, a team's wins, draws and losses add up to its number of entries. |
| Classification.SampleEntriesFor | test_scripts.py:188-197 | In the sample league, Team A's entries are the J1 win and the J2 draw. Team B's are the J1 loss and the J2 draw. |
| Classification.SampleSums | test_scripts.py:188-197 | Team A totals 4 points, W1 D1 L0, 3 touchdowns. Team B totals 1 point, W0 D1 L1, 2 touchdowns. |
| Classification.SampleKeys | update_classification.py:198-212 | Under the default criteria, Team A's key precedes Team B's. |
| Classification.SampleTable | test_scripts.py:186-213 | For the sample league, without fixtures and with default settings, the table holds both lines and ranks Team A above Team B. |
| Classification.BuildTable | update_classification.py:162-212 | Seeding, aggregation and the sort together give exactly `Standing`. |
| Classification.ClassificationTable | update_classification.py:159-212 | `generate_classification_table` sorts by the criteria of the loaded settings, or by the defaults. |
| Classification.OverallClassification | update_classification.py:229-287 | One table per division, in division order. Each is seeded only from that division's fixtures and ranked by the configured criteria. |

## Left out

- Spreadsheet, JSON and filesystem access are modelled as inputs:
  - each match sheet is a `Results.Record` (names and scores);
  - each fixture sheet is a `Standings.Sheet`;
  - `teams_info.json` and `league_points_cfg.json` are `Option` values, `None` for a missing file;
  - the existence of the match template is a boolean;
  - the fixture folders of the divisions are a map from division name to sheets, and a division without a folder has
    none.
- Writing match sheets, markdown tables and `league_data.json` is not modelled. Neither are `print`, `sys.argv` or
  `read_excel_files`'s folder discovery: they are output or command-line handling.
- The `pairings_json` branch of `generate_league` is not modelled: it copies pairings from a file, with no logic to
  verify.
- The `cash`, `fans` and `attendants` columns are not modelled: they are copied through and never used.
- Scores are natural numbers. Non-numeric or fractional cells, and the "Unknown_B"/"Unknown_C" names of undersized
  sheets, are not modelled: they require the spreadsheet reader.
- Read errors other than a missing points-table entry are not modelled: a sheet the reader cannot open is simply not
  in the input. A settings file without a "league_points" table counts as an empty table, so every lookup fails as in
  the source.
- The in-place updates of the source are modelled as returned values:
  - `process_date_folder` fills `date_data`;
  - `generate_division_schedule` appends "BYE" to the list it is given, which is always a copy or a fresh list.
- Scheduler.GenerateDivisionSchedule: returns the schedule and does not model the "BYE" appended to the argument list,
  because every caller passes a copy or a fresh list.
- Classification.SampleTable: stated for any league whose entries, in date then team order, are the sample's. The
  nested sample dictionary is not written out literally, because the proof over a literal is too costly.
- extract_team_info.py is not part of this model.
