/**
 * The aggregation of update_classification.py (`generate_classification_table`
 * and, division by division, `generate_overall_classification`).
 *
 * A team map is first seeded with every team the fixture sheets name, all
 * at zero. Then every entry of every date is added to its team: points and
 * touchdowns are summed, and the result counts as a win, a draw, or
 * (anything else) a loss. A team met for the first time starts at zero.
 */
module Standings {
  import opened Wrappers
  import opened Seqs
  import opened PyDict
  import opened Config
  import opened Results

  /** A team's line of the table. */
  datatype Stats = Stats(points: int, wins: int, draws: int, losses: int, touchdowns: int)

  /** `{"points": 0, "wins": 0, "draws": 0, "losses": 0, "touchdowns": 0}`. */
  const Zero := Stats(0, 0, 0, 0, 0)

  /** A team's line in `d`, or zeros when it has none. */
  function BaseOf(d: Dict<Stats>, team: string): Stats
  {
    if team in d.items then d.items[team] else Zero
  }

  /** The two name cells of a fixture sheet; `None` when the sheet is too small to hold one. */
  datatype Sheet = Sheet(teamB: Option<string>, teamC: Option<string>)

  /** `team and team != "nan"`: a name that is present, not empty and not "nan". */
  predicate Named(t: Option<string>)
  {
    t.Some? && t.value != "" && t.value != Nan
  }

  /** Adds a named team at zero unless it is already there. */
  function SeedTeam(d: Dict<Stats>, t: Option<string>): (r: Dict<Stats>)
    requires d.Valid()
    ensures r.Valid()
  {
    if Named(t) && t.value !in d.items then d.Set(t.value, Zero) else d
  }

  /** The team map after seeding from `sheets`, in order. */
  function Seeded(d: Dict<Stats>, sheets: seq<Sheet>): (r: Dict<Stats>)
    requires d.Valid()
    ensures r.Valid()
  {
    if sheets == [] then d
    else
      var last := sheets[|sheets| - 1];
      SeedTeam(SeedTeam(Seeded(d, sheets[..|sheets| - 1]), last.teamB), last.teamC)
  }

  /** A team some sheet names. */
  ghost predicate InSheets(sheets: seq<Sheet>, team: string)
  {
    exists i :: 0 <= i < |sheets| && ((Named(sheets[i].teamB) && sheets[i].teamB.value == team) ||
                                      (Named(sheets[i].teamC) && sheets[i].teamC.value == team))
  }

  /** A team named by the sheets is named by the first ones or by the last. */
  lemma InSheetsSnoc(sheets: seq<Sheet>, team: string)
    requires sheets != []
    ensures var init, last := sheets[..|sheets| - 1], sheets[|sheets| - 1];
      InSheets(sheets, team) <==>
        (InSheets(init, team) || (Named(last.teamB) && last.teamB.value == team) ||
         (Named(last.teamC) && last.teamC.value == team))
  {
    var init := sheets[..|sheets| - 1];
    if InSheets(sheets, team) {
      var i :| 0 <= i < |sheets| && ((Named(sheets[i].teamB) && sheets[i].teamB.value == team) ||
                                    (Named(sheets[i].teamC) && sheets[i].teamC.value == team));
      if i < |init| {
        assert init[i] == sheets[i];
      }
    }
    if InSheets(init, team) {
      var i :| 0 <= i < |init| && ((Named(init[i].teamB) && init[i].teamB.value == team) ||
                                  (Named(init[i].teamC) && init[i].teamC.value == team));
      assert sheets[i] == init[i];
    }
  }

  /** Seeding gives a key to every team it had and to every named team, and to no other. */
  lemma {:induction false} SeededKeys(d: Dict<Stats>, sheets: seq<Sheet>, team: string)
    requires d.Valid()
    ensures team in Seeded(d, sheets).items <==> team in d.items || InSheets(sheets, team)
  {
    if sheets != [] {
      SeededKeys(d, sheets[..|sheets| - 1], team);
      InSheetsSnoc(sheets, team);
    }
  }

  /**
   * Seeding never overwrites: an existing entry keeps its value, and every
   * key it adds holds zeros.
   */
  lemma {:induction false} SeededValues(d: Dict<Stats>, sheets: seq<Sheet>, team: string)
    requires d.Valid() && team in Seeded(d, sheets).items
    ensures Seeded(d, sheets).items[team] == BaseOf(d, team)
  {
    if sheets != [] {
      var prev := Seeded(d, sheets[..|sheets| - 1]);
      var last := sheets[|sheets| - 1];
      assert Seeded(d, sheets) == SeedTeam(SeedTeam(prev, last.teamB), last.teamC);
      if team in prev.items {
        SeededValues(d, sheets[..|sheets| - 1], team);
      } else {
        SeededKeys(d, sheets[..|sheets| - 1], team);
      }
    }
  }

  /** The seeding loop over the fixture sheets, starting from an empty map. */
  method SeedFromFixtures(sheets: seq<Sheet>) returns (teamsStats: Dict<Stats>)
    ensures teamsStats == Seeded(Empty(), sheets)
  {
    teamsStats := Empty();
    for i := 0 to |sheets|
      invariant teamsStats.Valid() && teamsStats == Seeded(Empty(), sheets[..i])
    {
      assert sheets[..i + 1][..i] == sheets[..i];
      var teamB, teamC := sheets[i].teamB, sheets[i].teamC;
      if teamB.Some? && teamB.value != "" && teamB.value != Nan {
        if teamB.value !in teamsStats.items {
          teamsStats := teamsStats.Set(teamB.value, Zero);
        }
      }
      if teamC.Some? && teamC.value != "" && teamC.value != Nan {
        if teamC.value !in teamsStats.items {
          teamsStats := teamsStats.Set(teamC.value, Zero);
        }
      }
    }
    assert sheets[..|sheets|] == sheets;
  }

  /** Seeding only appends teams: the teams already present keep their places, first. */
  lemma {:induction false} SeededOrder(d: Dict<Stats>, sheets: seq<Sheet>)
    requires d.Valid()
    ensures var r := Seeded(d, sheets); |d.keys| <= |r.keys| && r.keys[..|d.keys|] == d.keys
  {
    if sheets != [] {
      var last := sheets[|sheets| - 1];
      var a := Seeded(d, sheets[..|sheets| - 1]);
      SeededOrder(d, sheets[..|sheets| - 1]);
      var b := SeedTeam(a, last.teamB);
      assert |a.keys| <= |b.keys| && b.keys[..|a.keys|] == a.keys by {
        if Named(last.teamB) && last.teamB.value !in a.items {
          a.SetPrefix(last.teamB.value, Zero);
        }
      }
      var c := SeedTeam(b, last.teamC);
      assert |b.keys| <= |c.keys| && c.keys[..|b.keys|] == b.keys by {
        if Named(last.teamC) && last.teamC.value !in b.items {
          b.SetPrefix(last.teamC.value, Zero);
        }
      }
      PrefixTrans(d.keys, a.keys, b.keys);
      PrefixTrans(d.keys, b.keys, c.keys);
    }
  }

  /** One date's entry for one team. */
  type TeamEntry = (string, MatchEntry)

  /** Every entry of the given dates: dates in order, each date's teams in its own order. */
  function Flatten(dates: seq<string>, m: map<string, Dict<MatchEntry>>): seq<TeamEntry>
    requires forall k :: k in dates ==> k in m && m[k].Valid()
  {
    if dates == [] then [] else Flatten(dates[..|dates| - 1], m) + m[dates[|dates| - 1]].Entries()
  }

  /** A league (or division) map from date to that date's team map, every level a valid dictionary. */
  ghost predicate ValidLeague(leagueData: Dict<Dict<MatchEntry>>)
  {
    leagueData.Valid() && forall k :: k in leagueData.items ==> leagueData.items[k].Valid()
  }

  /** `for date, teams in league_data.items(): for team, data in teams.items()`. */
  function AllEntries(leagueData: Dict<Dict<MatchEntry>>): seq<TeamEntry>
    requires ValidLeague(leagueData)
  {
    Flatten(leagueData.keys, leagueData.items)
  }

  /** The `+=` updates for one entry. */
  function AddEntry(s: Stats, e: MatchEntry): Stats
  {
    Stats(s.points + e.points,
          s.wins + if e.result == Win then 1 else 0,
          s.draws + if e.result == Draw then 1 else 0,
          s.losses + if e.result != Win && e.result != Draw then 1 else 0,
          s.touchdowns + e.touchdowns)
  }

  /** The team map after adding the entries `es`, in order, to `d`. */
  function Tally(d: Dict<Stats>, es: seq<TeamEntry>): (r: Dict<Stats>)
    requires d.Valid()
    ensures r.Valid()
  {
    if es == [] then d
    else
      var prev := Tally(d, es[..|es| - 1]);
      var (team, e) := es[|es| - 1];
      var start := if team in prev.items then prev.items[team] else Zero;
      prev.Set(team, AddEntry(start, e))
  }

  /** Aggregation only appends teams: the teams of the starting map keep their places, first. */
  lemma {:induction false} TallyOrder(d: Dict<Stats>, es: seq<TeamEntry>)
    requires d.Valid()
    ensures var r := Tally(d, es); |d.keys| <= |r.keys| && r.keys[..|d.keys|] == d.keys
  {
    if es != [] {
      var prev := Tally(d, es[..|es| - 1]);
      TallyOrder(d, es[..|es| - 1]);
      var (team, e) := es[|es| - 1];
      var start := if team in prev.items then prev.items[team] else Zero;
      prev.SetPrefix(team, AddEntry(start, e));
      PrefixTrans(d.keys, prev.keys, Tally(d, es).keys);
    }
  }

  /** The entries of `team`, in order. */
  function EntriesFor(es: seq<TeamEntry>, team: string): seq<MatchEntry>
  {
    if es == [] then []
    else EntriesFor(es[..|es| - 1], team) + if es[|es| - 1].0 == team then [es[|es| - 1].1] else []
  }

  function PointsSum(xs: seq<MatchEntry>): int
  {
    if xs == [] then 0 else PointsSum(xs[..|xs| - 1]) + xs[|xs| - 1].points
  }

  function TouchdownsSum(xs: seq<MatchEntry>): int
  {
    if xs == [] then 0 else TouchdownsSum(xs[..|xs| - 1]) + xs[|xs| - 1].touchdowns
  }

  /** How many entries carry result `res`. */
  function CountResult(xs: seq<MatchEntry>, res: string): int
  {
    if xs == [] then 0 else CountResult(xs[..|xs| - 1], res) + if xs[|xs| - 1].result == res then 1 else 0
  }

  /** How many entries carry a result that is neither a win nor a draw. */
  function CountOther(xs: seq<MatchEntry>): int
  {
    if xs == [] then 0
    else CountOther(xs[..|xs| - 1]) + if xs[|xs| - 1].result != Win && xs[|xs| - 1].result != Draw then 1 else 0
  }

  /** The totals of a list of entries, field by field, stated without the table. */
  function Sums(xs: seq<MatchEntry>): Stats
  {
    Stats(PointsSum(xs), CountResult(xs, Win), CountResult(xs, Draw), CountOther(xs), TouchdownsSum(xs))
  }

  function Plus(a: Stats, b: Stats): Stats
  {
    Stats(a.points + b.points, a.wins + b.wins, a.draws + b.draws, a.losses + b.losses, a.touchdowns + b.touchdowns)
  }

  /** Every entry is counted exactly once: as a win, a draw or a loss. */
  lemma {:induction false} ResultsPartition(xs: seq<MatchEntry>)
    ensures CountResult(xs, Win) + CountResult(xs, Draw) + CountOther(xs) == |xs|
  {
    if xs != [] {
      ResultsPartition(xs[..|xs| - 1]);
      ResultsDiffer();
    }
  }

  /** Adding one more entry to totals is the totals of the longer list. */
  lemma SumsSnoc(base: Stats, xs: seq<MatchEntry>, e: MatchEntry)
    ensures AddEntry(Plus(base, Sums(xs)), e) == Plus(base, Sums(xs + [e]))
  {
    assert (xs + [e])[..|xs|] == xs;
  }

  /** A team is in the aggregated map exactly when it was there before or has an entry. */
  lemma {:induction false} TallyKeys(d: Dict<Stats>, es: seq<TeamEntry>, team: string)
    requires d.Valid()
    ensures team in Tally(d, es).items <==> team in d.items || EntriesFor(es, team) != []
  {
    if es != [] {
      var init := es[..|es| - 1];
      var (t, e) := es[|es| - 1];
      TallyKeys(d, init, team);
      var prev := Tally(d, init);
      var start := if t in prev.items then prev.items[t] else Zero;
      assert Tally(d, es) == prev.Set(t, AddEntry(start, e));
      assert EntriesFor(es, team) == EntriesFor(init, team) + if t == team then [e] else [];
    }
  }

  /**
   * The aggregation against the per-team sums: a team's line is its
   * starting line plus the sums of its own entries.
   */
  lemma {:induction false} TallySpec(d: Dict<Stats>, es: seq<TeamEntry>, team: string)
    requires d.Valid() && team in Tally(d, es).items
    ensures Tally(d, es).items[team] == Plus(BaseOf(d, team), Sums(EntriesFor(es, team)))
  {
    if es == [] {
      NoEntries(EntriesFor(es, team), BaseOf(d, team));
    } else {
      var init := es[..|es| - 1];
      var (t, e) := es[|es| - 1];
      var prev := Tally(d, init);
      var start := if t in prev.items then prev.items[t] else Zero;
      assert Tally(d, es) == prev.Set(t, AddEntry(start, e));
      if t == team {
        assert EntriesFor(es, team) == EntriesFor(init, team) + [e];
        assert start == Plus(BaseOf(d, team), Sums(EntriesFor(init, team))) by {
          if team in prev.items {
            TallySpec(d, init, team);
          } else {
            TallyKeys(d, init, team);
            NoEntries(EntriesFor(init, team), BaseOf(d, team));
          }
        }
        SumsSnoc(BaseOf(d, team), EntriesFor(init, team), e);
      } else {
        assert EntriesFor(es, team) == EntriesFor(init, team) by {
          assert EntriesFor(es, team) == EntriesFor(init, team) + [];
        }
        TallySpec(d, init, team);
      }
    }
  }

  /** No entries add nothing to a starting line. */
  lemma NoEntries(xs: seq<MatchEntry>, base: Stats)
    requires xs == []
    ensures Plus(base, Sums(xs)) == base
  {
  }

  /** A team's wins, draws and losses add up to its number of entries (plus those it started with). */
  lemma TallyCounts(d: Dict<Stats>, es: seq<TeamEntry>, team: string)
    requires d.Valid() && team in Tally(d, es).items
    ensures var s, b := Tally(d, es).items[team], BaseOf(d, team);
      s.wins + s.draws + s.losses == b.wins + b.draws + b.losses + |EntriesFor(es, team)|
  {
    TallySpec(d, es, team);
    ResultsPartition(EntriesFor(es, team));
  }

  /** A team that was only seeded, with no entry, keeps the zeros it was seeded with. */
  lemma UnplayedZero(d: Dict<Stats>, es: seq<TeamEntry>, team: string)
    requires d.Valid() && team in d.items && d.items[team] == Zero && EntriesFor(es, team) == []
    ensures team in Tally(d, es).items && Tally(d, es).items[team] == Zero
  {
    TallyKeys(d, es, team);
    TallySpec(d, es, team);
    NoEntries(EntriesFor(es, team), Zero);
  }

  /** One step of the nested loop: the entry `entries[j]` added to the map built so far. */
  lemma TallyStep(d: Dict<Stats>, before: seq<TeamEntry>, entries: seq<TeamEntry>, j: nat)
    requires d.Valid() && j < |entries|
    ensures var prev, team, e := Tally(d, before + entries[..j]), entries[j].0, entries[j].1;
      var withTeam := if team !in prev.items then prev.Set(team, Zero) else prev;
      team in withTeam.items &&
      withTeam.Set(team, AddEntry(withTeam.items[team], e)) == Tally(d, before + entries[..j + 1])
  {
    var es := before + entries[..j + 1];
    assert es[..|es| - 1] == before + entries[..j] && es[|es| - 1] == entries[j];
    var prev, team, e := Tally(d, before + entries[..j]), entries[j].0, entries[j].1;
    var start := if team in prev.items then prev.items[team] else Zero;
    assert Tally(d, es) == prev.Set(team, AddEntry(start, e));
    if team !in prev.items {
      prev.SetTwice(team, Zero, AddEntry(Zero, e));
    }
  }

  /** The per-entry updates of the source, field by field. */
  method AddToTeam(teamsStats: Dict<Stats>, team: string, data: MatchEntry) returns (updated: Dict<Stats>)
    requires teamsStats.Valid() && team in teamsStats.items
    ensures updated == teamsStats.Set(team, AddEntry(teamsStats.items[team], data))
  {
    var stats := teamsStats.items[team];
    stats := stats.(points := stats.points + data.points);
    stats := stats.(touchdowns := stats.touchdowns + data.touchdowns);
    if data.result == Win {
      stats := stats.(wins := stats.wins + 1);
    } else if data.result == Draw {
      stats := stats.(draws := stats.draws + 1);
    } else {
      stats := stats.(losses := stats.losses + 1);
    }
    updated := teamsStats.Set(team, stats);
  }

  /** The aggregation loops: every date in order, every team of the date in order. */
  method Aggregate(leagueData: Dict<Dict<MatchEntry>>, seeded: Dict<Stats>) returns (teamsStats: Dict<Stats>)
    requires ValidLeague(leagueData) && seeded.Valid()
    ensures teamsStats == Tally(seeded, AllEntries(leagueData))
  {
    teamsStats := seeded;
    var dates := leagueData.keys;
    for i := 0 to |dates|
      invariant teamsStats == Tally(seeded, Flatten(dates[..i], leagueData.items))
    {
      var entries := leagueData.items[dates[i]].Entries();
      ghost var before := Flatten(dates[..i], leagueData.items);
      assert before + entries[..0] == before;
      for j := 0 to |entries|
        invariant teamsStats == Tally(seeded, before + entries[..j])
      {
        var (team, data) := entries[j];
        TallyStep(seeded, before, entries, j);
        if team !in teamsStats.items {
          teamsStats := teamsStats.Set(team, Zero);
        }
        teamsStats := AddToTeam(teamsStats, team, data);
      }
      assert dates[..i + 1][..i] == dates[..i] && entries[..|entries|] == entries;
    }
    assert dates[..|dates|] == dates;
  }
}
