/**
 * The division side of generate_league.py: grouping the teams of
 * teams_info.json by their "group" field (`load_teams_with_divisions`),
 * the cross-division schedule over all teams
 * (`generate_cross_division_matches`), and the fixtures and totals that
 * `generate_league` produces from them.
 */
module Divisions {
  import opened Wrappers
  import opened Seqs
  import opened PyDict
  import opened Scheduler
  import opened RoundRobin

  /** What teams_info.json says about one team that matters here: its optional "group" field. */
  datatype TeamInfo = TeamInfo(group: Option<string>)

  /** One item of teams_info.json: a team name and its record. */
  type Entry = (Team, TeamInfo)

  /** The group of a team whose record has no "group" field. */
  const DefaultGroup: string := "Unknown"

  /** `team_info.get('group', 'Unknown')`. */
  function GroupOf(info: TeamInfo): string
  {
    info.group.GetOr(DefaultGroup)
  }

  /** The team names, in file order. */
  function Names(es: seq<Entry>): (ns: seq<Team>)
    ensures |ns| == |es| && forall k :: 0 <= k < |es| ==> ns[k] == es[k].0
  {
    if es == [] then [] else Names(es[..|es| - 1]) + [es[|es| - 1].0]
  }

  /**
   * The divisions after folding the first entries in: a new group gets an
   * empty list first, then the team is appended to its group's list.
   */
  function Grouped(es: seq<Entry>): (d: Dict<seq<Team>>)
    ensures d.Valid()
  {
    if es == [] then Empty()
    else
      var prev := Grouped(es[..|es| - 1]);
      var e := es[|es| - 1];
      var g := GroupOf(e.1);
      var start := if g in prev.items then prev.items[g] else [];
      prev.Set(g, start + [e.0])
  }

  /** The groups in order of their first team. */
  function GroupOrder(es: seq<Entry>): (o: seq<string>)
  {
    if es == [] then []
    else
      var o := GroupOrder(es[..|es| - 1]);
      var g := GroupOf(es[|es| - 1].1);
      if g in o then o else o + [g]
  }

  /** The teams of group `g`, in file order. */
  function Members(es: seq<Entry>, g: string): (m: seq<Team>)
  {
    if es == [] then []
    else Members(es[..|es| - 1], g) + if GroupOf(es[|es| - 1].1) == g then [es[|es| - 1].0] else []
  }

  /**
   * `load_teams_with_divisions`: the grouping of the file's items in
   * order, or no divisions at all when the file is missing.
   */
  function LoadedDivisions(teamsFile: Option<Dict<TeamInfo>>): (d: Dict<seq<Team>>)
    requires teamsFile.Some? ==> teamsFile.value.Valid()
    ensures d.Valid()
    ensures teamsFile.None? ==> d.keys == []
  {
    if teamsFile.None? then Empty() else Grouped(teamsFile.value.Entries())
  }

  /** `load_teams_with_divisions`, the loop filling the `divisions` dictionary. */
  method LoadTeamsWithDivisions(teamsFile: Option<Dict<TeamInfo>>) returns (divisions: Dict<seq<Team>>)
    requires teamsFile.Some? ==> teamsFile.value.Valid()
    ensures divisions == LoadedDivisions(teamsFile)
  {
    if teamsFile.None? {
      return Empty();
    }
    var es := teamsFile.value.Entries();
    divisions := Empty();
    for k := 0 to |es|
      invariant divisions == Grouped(es[..k])
    {
      var (teamName, teamInfo) := es[k];
      var group := GroupOf(teamInfo);
      GroupedStep(es, k);
      var withGroup := if group !in divisions.items then divisions.Set(group, []) else divisions;
      divisions := withGroup.Set(group, withGroup.items[group] + [teamName]);
    }
    assert es[..|es|] == es;
  }

  /** Creating the group's list when it is new and then appending to it is one step of the fold. */
  lemma GroupedStep(es: seq<Entry>, k: nat)
    requires k < |es|
    ensures var d, g := Grouped(es[..k]), GroupOf(es[k].1);
      var withGroup := if g !in d.items then d.Set(g, []) else d;
      g in withGroup.items && withGroup.Set(g, withGroup.items[g] + [es[k].0]) == Grouped(es[..k + 1])
  {
    var d, g, x := Grouped(es[..k]), GroupOf(es[k].1), es[k].0;
    assert es[..k + 1][..k] == es[..k];
    if g !in d.items {
      d.SetTwice(g, [], [] + [x]);
    }
  }

  /** The grouping is the reference one: the groups in order of first appearance, each with its teams in file order. */
  lemma {:induction false} GroupedSpec(es: seq<Entry>)
    ensures Grouped(es).keys == GroupOrder(es)
    ensures forall g :: g in Grouped(es).items ==> Grouped(es).items[g] == Members(es, g)
  {
    if es != [] {
      var init, e := es[..|es| - 1], es[|es| - 1];
      var prev, g := Grouped(init), GroupOf(e.1);
      assert prev.keys == GroupOrder(init) && forall h :: h in prev.items ==> prev.items[h] == Members(init, h) by {
        GroupedSpec(init);
      }
      var start := if g in prev.items then prev.items[g] else [];
      assert start == Members(init, g) by {
        if g !in prev.items {
          MembersAbsent(init, g);
        }
      }
      assert Grouped(es) == prev.Set(g, start + [e.0]);
      forall h | h in Grouped(es).items
        ensures Grouped(es).items[h] == Members(es, h)
      {
        assert Members(es, h) == Members(init, h) + if g == h then [e.0] else [];
      }
    }
  }

  /** A group without a team so far has no members. */
  lemma {:induction false} MembersAbsent(es: seq<Entry>, g: string)
    requires g !in GroupOrder(es)
    ensures Members(es, g) == []
  {
    if es != [] {
      var init := es[..|es| - 1];
      assert g !in GroupOrder(init);
      MembersAbsent(init, g);
    }
  }

  /** A group appears in the order exactly when some team has it. */
  lemma {:induction false} GroupOrderIn(es: seq<Entry>, g: string)
    ensures g in GroupOrder(es) <==> exists k :: 0 <= k < |es| && GroupOf(es[k].1) == g
  {
    if es != [] {
      var init := es[..|es| - 1];
      GroupOrderIn(init, g);
      assert forall k :: 0 <= k < |init| ==> init[k] == es[k];
    }
  }

  /** A team is among the members of `g` exactly when some entry with its name has group `g`. */
  lemma {:induction false} MembersIn(es: seq<Entry>, g: string, x: Team)
    ensures x in Members(es, g) <==> exists k :: 0 <= k < |es| && es[k].0 == x && GroupOf(es[k].1) == g
  {
    if es != [] {
      var init := es[..|es| - 1];
      MembersIn(init, g, x);
      assert forall k :: 0 <= k < |init| ==> init[k] == es[k];
    }
  }

  /** Grouping keeps file order: the members of a group of `a + b` are those of `a`, then those of `b`. */
  lemma {:induction false} MembersAppend(a: seq<Entry>, b: seq<Entry>, g: string)
    ensures Members(a + b, g) == Members(a, g) + Members(b, g)
  {
    if b != [] {
      var b' := b[..|b| - 1];
      assert (a + b)[..|a + b| - 1] == a + b';
      MembersAppend(a, b', g);
    } else {
      assert a + b == a;
    }
  }

  /**
   * In a file whose team names are distinct, each team is in the list of
   * its own group and in no other list.
   */
  lemma OwnDivision(es: seq<Entry>, k: nat, g: string)
    requires Distinct(Names(es)) && k < |es|
    ensures GroupOf(es[k].1) in GroupOrder(es)
    ensures es[k].0 in Members(es, g) <==> g == GroupOf(es[k].1)
  {
    GroupOrderIn(es, GroupOf(es[k].1));
    if g == GroupOf(es[k].1) {
      MembersIn(es, g, es[k].0);
    } else {
      OnlyOwnGroup(es, k, g);
    }
  }

  /** A team of a file with distinct names is a member of no group but its own. */
  lemma OnlyOwnGroup(es: seq<Entry>, k: nat, h: string)
    requires Distinct(Names(es)) && k < |es| && h != GroupOf(es[k].1)
    ensures es[k].0 !in Members(es, h)
  {
    MembersIn(es, h, es[k].0);
    forall j | 0 <= j < |es| && es[j].0 == es[k].0
      ensures j == k
    {
      assert Names(es)[j] == Names(es)[k];
    }
  }

  /** The teams of all divisions, division after division: `all_teams.extend(teams)` for every value. */
  function Concat(gs: seq<string>, m: map<string, seq<Team>>): (all: seq<Team>)
    requires forall g :: g in gs ==> g in m
  {
    if gs == [] then [] else Concat(gs[..|gs| - 1], m) + m[gs[|gs| - 1]]
  }

  /** All the teams of a league, in iteration order of the divisions. */
  function AllTeams(divisions: Dict<seq<Team>>): seq<Team>
    requires divisions.Valid()
  {
    Concat(divisions.keys, divisions.items)
  }

  /** Changing the list of a group not iterated over changes nothing. */
  lemma {:induction false} ConcatIgnores(gs: seq<string>, m: map<string, seq<Team>>, g: string, v: seq<Team>)
    requires forall h :: h in gs ==> h in m
    requires g !in gs
    ensures Concat(gs, m[g := v]) == Concat(gs, m)
  {
    if gs != [] {
      ConcatIgnores(gs[..|gs| - 1], m, g, v);
    }
  }

  /** Appending a team to one group's list adds that team once to the concatenation. */
  lemma {:induction false} ConcatAppend(gs: seq<string>, m: map<string, seq<Team>>, g: string, x: Team)
    requires forall h :: h in gs ==> h in m
    requires Distinct(gs) && g in gs
    ensures multiset(Concat(gs, m[g := m[g] + [x]])) == multiset(Concat(gs, m)) + multiset{x}
  {
    var init, last := gs[..|gs| - 1], gs[|gs| - 1];
    var m' := m[g := m[g] + [x]];
    if last == g {
      assert g !in init by {
        forall i | 0 <= i < |init|
          ensures init[i] != g
        {
          assert init[i] == gs[i];
        }
      }
      ConcatIgnores(init, m, g, m[g] + [x]);
    } else {
      assert Distinct(init) by {
        forall i, j | 0 <= i < j < |init|
          ensures init[i] != init[j]
        {
          assert init[i] == gs[i] && init[j] == gs[j];
        }
      }
      assert g in init by {
        var i :| 0 <= i < |gs| && gs[i] == g;
        assert init[i] == g;
      }
      ConcatAppend(init, m, g, x);
    }
  }

  /** The concatenation of the division lists holds every team of the file, as often as the file. */
  lemma {:induction false} GroupedPermutes(es: seq<Entry>)
    ensures multiset(AllTeams(Grouped(es))) == multiset(Names(es))
  {
    if es != [] {
      var init, e := es[..|es| - 1], es[|es| - 1];
      var d, g := Grouped(init), GroupOf(e.1);
      assert multiset(AllTeams(d)) == multiset(Names(init)) by {
        GroupedPermutes(init);
      }
      assert Names(es) == Names(init) + [e.0];
      assert multiset(AllTeams(Grouped(es))) == multiset(AllTeams(d)) + multiset{e.0} by {
        GroupedStepPermutes(d, g, e.0);
      }
    }
  }

  /** One step of the grouping fold adds its team once to the concatenation. */
  lemma GroupedStepPermutes(d: Dict<seq<Team>>, g: string, x: Team)
    requires d.Valid()
    ensures var start := if g in d.items then d.items[g] else [];
      multiset(AllTeams(d.Set(g, start + [x]))) == multiset(AllTeams(d)) + multiset{x}
  {
    if g in d.items {
      ConcatAppend(d.keys, d.items, g, x);
    } else {
      var start: seq<Team> := [];
      assert start + [x] == [x];
      var d' := d.Set(g, [x]);
      assert d'.keys == d.keys + [g];
      assert (d.keys + [g])[..|d.keys|] == d.keys;
      assert Concat(d.keys, d'.items) == Concat(d.keys, d.items) by {
        ConcatIgnores(d.keys, d.items, g, [x]);
      }
      assert AllTeams(d') == Concat(d.keys, d'.items) + [x];
    }
  }

  /** `generate_cross_division_matches`: the division scheduler over all teams, division after division. */
  method GenerateCrossDivisionMatches(divisions: Dict<seq<Team>>) returns (cross: seq<Round>)
    requires divisions.Valid()
    ensures cross == Schedule(AllTeams(divisions))
  {
    var allTeams: seq<Team> := [];
    for k := 0 to |divisions.keys|
      invariant allTeams == Concat(divisions.keys[..k], divisions.items)
    {
      assert divisions.keys[..k + 1][..k] == divisions.keys[..k];
      allTeams := allTeams + divisions.items[divisions.keys[k]];
    }
    assert divisions.keys[..|divisions.keys|] == divisions.keys;
    cross := GenerateDivisionSchedule(allTeams);
  }

  /**
   * Every two different teams of a file with distinct names, none of them
   * the placeholder, meet exactly once in the cross-division schedule,
   * whether they share a division or not.
   */
  lemma CrossEveryPairMeetsOnce(es: seq<Entry>, a: Team, b: Team)
    requires Distinct(Names(es)) && Bye !in Names(es)
    requires a in Names(es) && b in Names(es) && a != b
    ensures TotalOccurrences(Schedule(AllTeams(Grouped(es))), a, b) == 1
  {
    var all := AllTeams(Grouped(es));
    GroupedPermutes(es);
    DistinctPermutation(all, Names(es));
    assert a in multiset(all) && b in multiset(all) && Bye !in multiset(all);
    EveryPairMeetsOnce(all, a, b);
  }

  /** `len([t for t in teams if t != 'BYE'])`. */
  function RealTeams(teams: seq<Team>): (n: nat)
    ensures n <= |teams|
    ensures Bye !in teams ==> n == |teams|
  {
    if teams == [] then 0 else RealTeams(teams[..|teams| - 1]) + if teams[|teams| - 1] != Bye then 1 else 0
  }

  /** The fixtures folder of one division: its name and its dates. */
  type Fixture = (string, seq<Round>)

  /** The divisions with at least two teams, in iteration order, each with its schedule. */
  function DivisionFixtures(gs: seq<string>, m: map<string, seq<Team>>): seq<Fixture>
    requires forall g :: g in gs ==> g in m
  {
    if gs == [] then []
    else
      var g := gs[|gs| - 1];
      DivisionFixtures(gs[..|gs| - 1], m) + if |m[g]| >= 2 then [(g, Schedule(m[g]))] else []
  }

  /** The teams counted for the divisions that get fixtures. */
  function FixtureTeams(gs: seq<string>, m: map<string, seq<Team>>): nat
    requires forall g :: g in gs ==> g in m
  {
    if gs == [] then 0
    else
      var g := gs[|gs| - 1];
      FixtureTeams(gs[..|gs| - 1], m) + if |m[g]| >= 2 then RealTeams(m[g]) else 0
  }

  /** The matches of a sequence of fixtures folders. */
  function FixtureMatches(fs: seq<Fixture>): nat
  {
    if fs == [] then 0 else FixtureMatches(fs[..|fs| - 1]) + MatchCount(fs[|fs| - 1].1)
  }

  /**
   * What `generate_league` produces when no pairings file is given: the
   * fixtures of each division, the cross-division fixtures (empty unless
   * requested) and the two totals it reports.
   */
  datatype League = League(fixtures: seq<Fixture>, cross: seq<Round>, totalTeams: nat, totalMatches: nat)

  /** The cross-division fixtures: only when requested and there is more than one division. */
  function CrossFixtures(divisions: Dict<seq<Team>>, crossDivision: bool): seq<Round>
    requires divisions.Valid()
  {
    if crossDivision && |divisions.keys| > 1 then Schedule(AllTeams(divisions)) else []
  }

  /**
   * The league `generate_league` produces: nothing when there are no
   * divisions or the match sheet template is missing.
   */
  function Plan(divisions: Dict<seq<Team>>, templateExists: bool, crossDivision: bool): (league: Option<League>)
    requires divisions.Valid()
    ensures league.None? <==> divisions.keys == [] || !templateExists
  {
    if divisions.keys == [] || !templateExists then None
    else
      var fs := DivisionFixtures(divisions.keys, divisions.items);
      var cross := CrossFixtures(divisions, crossDivision);
      Some(League(fs, cross, FixtureTeams(divisions.keys, divisions.items), FixtureMatches(fs) + MatchCount(cross)))
  }

  /**
   * The loop of `generate_league` over the divisions: a division of fewer
   * than two teams is skipped, every other one is scheduled and counted.
   */
  method ScheduleDivisions(divisions: Dict<seq<Team>>) returns (fixtures: seq<Fixture>, totalTeams: nat, totalMatches: nat)
    requires divisions.Valid()
    ensures fixtures == DivisionFixtures(divisions.keys, divisions.items)
    ensures totalTeams == FixtureTeams(divisions.keys, divisions.items)
    ensures totalMatches == FixtureMatches(fixtures)
  {
    var ks := divisions.keys;
    totalTeams, totalMatches := 0, 0;
    fixtures := [];
    for k := 0 to |ks|
      invariant fixtures == DivisionFixtures(ks[..k], divisions.items)
      invariant totalTeams == FixtureTeams(ks[..k], divisions.items)
      invariant totalMatches == FixtureMatches(fixtures)
    {
      FixturesStep(ks, divisions.items, k);
      var divisionName := ks[k];
      var teams := divisions.items[divisionName];
      if |teams| >= 2 {
        var schedule := GenerateDivisionSchedule(teams);
        var divisionMatches := MatchCount(schedule);
        totalTeams := totalTeams + RealTeams(teams);
        totalMatches := totalMatches + divisionMatches;
        FixtureMatchesSnoc(fixtures, (divisionName, schedule));
        fixtures := fixtures + [(divisionName, schedule)];
      }
    }
    assert ks[..|ks|] == ks;
  }

  /** One more division extends the fixtures and the team count by that division's share. */
  lemma FixturesStep(ks: seq<string>, m: map<string, seq<Team>>, k: nat)
    requires (forall g :: g in ks ==> g in m) && k < |ks|
    ensures var g := ks[k];
      DivisionFixtures(ks[..k + 1], m) == DivisionFixtures(ks[..k], m) + (if |m[g]| >= 2 then [(g, Schedule(m[g]))] else [])
    ensures var g := ks[k];
      FixtureTeams(ks[..k + 1], m) == FixtureTeams(ks[..k], m) + (if |m[g]| >= 2 then RealTeams(m[g]) else 0)
  {
    assert ks[..k + 1][..k] == ks[..k];
  }

  /** One more fixtures folder adds its matches to the count. */
  lemma FixtureMatchesSnoc(fs: seq<Fixture>, f: Fixture)
    ensures FixtureMatches(fs + [f]) == FixtureMatches(fs) + MatchCount(f.1)
  {
    assert (fs + [f])[..|fs|] == fs;
  }

  /**
   * `generate_league` without a pairings file: load the divisions, then
   * build the fixtures from them.
   */
  method GenerateLeague(teamsFile: Option<Dict<TeamInfo>>, templateExists: bool, crossDivision: bool)
    returns (league: Option<League>)
    requires teamsFile.Some? ==> teamsFile.value.Valid()
    ensures league == Plan(LoadedDivisions(teamsFile), templateExists, crossDivision)
  {
    var divisions := LoadTeamsWithDivisions(teamsFile);
    league := BuildLeague(divisions, templateExists, crossDivision);
  }

  /**
   * The rest of `generate_league`: stop when there are no divisions or the
   * template is missing, schedule and count the divisions, then add the
   * cross-division fixtures when requested and not empty.
   */
  method BuildLeague(divisions: Dict<seq<Team>>, templateExists: bool, crossDivision: bool)
    returns (league: Option<League>)
    requires divisions.Valid()
    ensures league == Plan(divisions, templateExists, crossDivision)
  {
    if divisions.keys == [] {
      return None;
    }
    if !templateExists {
      return None;
    }
    var fixtures, totalTeams, divisionMatches := ScheduleDivisions(divisions);
    var cross, crossMatchCount := CrossDivisionFixtures(divisions, crossDivision);
    league := Some(League(fixtures, cross, totalTeams, divisionMatches + crossMatchCount));
  }

  /**
   * The cross-division part of `generate_league`: only when requested and
   * there is more than one division, and counted only when not empty.
   */
  method CrossDivisionFixtures(divisions: Dict<seq<Team>>, crossDivision: bool) returns (cross: seq<Round>, crossMatchCount: nat)
    requires divisions.Valid()
    ensures cross == CrossFixtures(divisions, crossDivision)
    ensures crossMatchCount == MatchCount(cross)
  {
    cross, crossMatchCount := [], 0;
    if crossDivision && |divisions.keys| > 1 {
      var crossMatches := GenerateCrossDivisionMatches(divisions);
      if crossMatches != [] {
        cross := crossMatches;
        crossMatchCount := MatchCount(crossMatches);
      }
    }
  }

  /**
   * A division gets a fixtures folder exactly when it has at least two
   * teams, and the folder holds that division's schedule.
   */
  lemma {:induction false} FixturesSkip(gs: seq<string>, m: map<string, seq<Team>>, name: string, s: seq<Round>)
    requires forall g :: g in gs ==> g in m
    requires Distinct(gs)
    ensures (name, s) in DivisionFixtures(gs, m) <==> name in gs && |m[name]| >= 2 && s == Schedule(m[name])
  {
    if gs != [] {
      var init, g := gs[..|gs| - 1], gs[|gs| - 1];
      assert Distinct(init) by {
        forall i, j | 0 <= i < j < |init|
          ensures init[i] != init[j]
        {
          assert init[i] == gs[i] && init[j] == gs[j];
        }
      }
      assert g !in init by {
        forall i | 0 <= i < |init|
          ensures init[i] != g
        {
          assert init[i] == gs[i];
        }
      }
      assert gs == init + [g];
      FixturesSkip(init, m, name, s);
    }
  }

  /** The teams of the divisions with at least two teams. */
  function ScheduledTeams(gs: seq<string>, m: map<string, seq<Team>>): nat
    requires forall g :: g in gs ==> g in m
  {
    if gs == [] then 0
    else
      var n := |m[gs[|gs| - 1]]|;
      ScheduledTeams(gs[..|gs| - 1], m) + if n >= 2 then n else 0
  }

  /** n(n-1)/2 for every division of n >= 2 teams: the number of pairs that can meet. */
  function PairTotal(gs: seq<string>, m: map<string, seq<Team>>): nat
    requires forall g :: g in gs ==> g in m
  {
    if gs == [] then 0
    else
      var n := |m[gs[|gs| - 1]]|;
      PairTotal(gs[..|gs| - 1], m) + if n >= 2 then n * (n - 1) / 2 else 0
  }

  /** With no team called "BYE", the totals count every team of a scheduled division and every pair of it once. */
  lemma {:induction false} DivisionTotals(gs: seq<string>, m: map<string, seq<Team>>)
    requires forall g :: g in gs ==> g in m && Bye !in m[g]
    ensures FixtureTeams(gs, m) == ScheduledTeams(gs, m)
    ensures FixtureMatches(DivisionFixtures(gs, m)) == PairTotal(gs, m)
  {
    if gs != [] {
      var init, g := gs[..|gs| - 1], gs[|gs| - 1];
      DivisionTotals(init, m);
      var fs := DivisionFixtures(init, m);
      if |m[g]| >= 2 {
        assert MatchCount(Schedule(m[g])) == |m[g]| * (|m[g]| - 1) / 2 by {
          TotalMatches(m[g]);
        }
        var fs' := fs + [(g, Schedule(m[g]))];
        assert fs'[..|fs'| - 1] == fs;
      } else {
        assert DivisionFixtures(gs, m) == fs + [];
        assert fs + [] == fs;
      }
    }
  }

  /** A team of the concatenation is a team of one of the divisions. */
  lemma {:induction false} ConcatIn(gs: seq<string>, m: map<string, seq<Team>>, x: Team)
    requires forall g :: g in gs ==> g in m
    requires x in Concat(gs, m)
    ensures exists g :: g in gs && x in m[g]
  {
    var init, g := gs[..|gs| - 1], gs[|gs| - 1];
    if x !in m[g] {
      ConcatIn(init, m, x);
      var h :| h in init && x in m[h];
      assert h in gs;
    }
  }

  /**
   * With no team called "BYE", `generate_league` reports every team of a
   * scheduled division, and as many matches as there are pairs in those
   * divisions, plus every pair of the whole league when cross-division
   * fixtures were made.
   */
  lemma LeagueTotals(divisions: Dict<seq<Team>>, templateExists: bool, crossDivision: bool)
    requires divisions.Valid() && forall g :: g in divisions.items ==> Bye !in divisions.items[g]
    requires divisions.keys != [] && templateExists
    ensures Plan(divisions, templateExists, crossDivision).Some?
    ensures Plan(divisions, templateExists, crossDivision).value.totalTeams == ScheduledTeams(divisions.keys, divisions.items)
    ensures var n := |AllTeams(divisions)|;
      Plan(divisions, templateExists, crossDivision).value.totalMatches ==
      PairTotal(divisions.keys, divisions.items) + if crossDivision && |divisions.keys| > 1 then n * (n - 1) / 2 else 0
  {
    var all := AllTeams(divisions);
    var fs := DivisionFixtures(divisions.keys, divisions.items);
    assert FixtureTeams(divisions.keys, divisions.items) == ScheduledTeams(divisions.keys, divisions.items)
      && FixtureMatches(fs) == PairTotal(divisions.keys, divisions.items) by {
      DivisionTotals(divisions.keys, divisions.items);
    }
    if crossDivision && |divisions.keys| > 1 {
      assert Bye !in all by {
        if Bye in all {
          ConcatIn(divisions.keys, divisions.items, Bye);
        }
      }
      assert MatchCount(Schedule(all)) == |all| * (|all| - 1) / 2 by {
        TotalMatches(all);
      }
    }
  }

  /** In a file with distinct names, no group lists a team twice. */
  lemma {:induction false} MembersDistinct(es: seq<Entry>, g: string)
    requires Distinct(Names(es))
    ensures Distinct(Members(es, g))
  {
    if es != [] {
      var init, e := es[..|es| - 1], es[|es| - 1];
      assert Names(es) == Names(init) + [e.0];
      assert Distinct(Names(init)) by {
        forall i, j | 0 <= i < j < |init|
          ensures Names(init)[i] != Names(init)[j]
        {
          assert Names(init)[i] == Names(es)[i] && Names(init)[j] == Names(es)[j];
        }
      }
      MembersDistinct(init, g);
      if GroupOf(e.1) == g {
        assert e.0 !in Members(init, g) by {
          MembersIn(init, g, e.0);
          forall j | 0 <= j < |init|
            ensures init[j].0 != e.0
          {
            assert Names(es)[j] == init[j].0;
          }
        }
        DistinctAppend(Members(init, g), e.0);
      } else {
        assert Members(es, g) == Members(init, g) + [];
        assert Members(init, g) + [] == Members(init, g);
      }
    }
  }

  /** Only teams of the file are members of a group. */
  lemma MembersNamed(es: seq<Entry>, g: string, x: Team)
    requires x in Members(es, g)
    ensures x in Names(es)
  {
    MembersIn(es, g, x);
    var k :| 0 <= k < |es| && es[k].0 == x && GroupOf(es[k].1) == g;
    assert Names(es)[k] == x;
  }

  /**
   * In a file with distinct names and no team called "BYE", every two
   * different teams of a division meet exactly once in its fixtures.
   */
  lemma DivisionPairsMeetOnce(es: seq<Entry>, name: string, s: seq<Round>, a: Team, b: Team)
    requires Distinct(Names(es)) && Bye !in Names(es)
    requires name in Grouped(es).items && (name, s) in DivisionFixtures(Grouped(es).keys, Grouped(es).items)
    requires a in Grouped(es).items[name] && b in Grouped(es).items[name] && a != b
    ensures TotalOccurrences(s, a, b) == 1
  {
    var d := Grouped(es);
    var teams := Members(es, name);
    assert d.items[name] == teams by {
      GroupedSpec(es);
    }
    assert s == Schedule(teams) by {
      FixturesSkip(d.keys, d.items, name, s);
    }
    assert Distinct(teams) by {
      MembersDistinct(es, name);
    }
    assert Bye !in teams by {
      if Bye in teams {
        MembersNamed(es, name, Bye);
      }
    }
    EveryPairMeetsOnce(teams, a, b);
  }

  /**
   * Four teams: "Orcs" in "North", "Elves" and "Dwarfs" in "South",
   * "Goblins" without a group. The groups come in order of first
   * appearance, Goblins lands in "Unknown", South keeps file order.
   */
  lemma GroupingExample()
    ensures var es := [("Orcs", TeamInfo(Some("North"))), ("Elves", TeamInfo(Some("South"))),
                       ("Dwarfs", TeamInfo(Some("South"))), ("Goblins", TeamInfo(None))];
      GroupOrder(es) == ["North", "South", "Unknown"] &&
      Members(es, "South") == ["Elves", "Dwarfs"] && Members(es, "Unknown") == ["Goblins"]
  {
    var es := [("Orcs", TeamInfo(Some("North"))), ("Elves", TeamInfo(Some("South"))),
               ("Dwarfs", TeamInfo(Some("South"))), ("Goblins", TeamInfo(None))];
    var north, south, unknown := "North", "South", "Unknown";
    assert north != south && north != unknown && south != unknown by {
      assert north[0] != south[0] && north[0] != unknown[0] && south[0] != unknown[0];
    }
    assert es[..4][..3] == es[..3] && es[..3][..2] == es[..2] && es[..2][..1] == es[..1] && |es[..1][..0]| == 0;
    assert GroupOf(es[0].1) == north && GroupOf(es[1].1) == south && GroupOf(es[2].1) == south && GroupOf(es[3].1) == unknown;
    assert GroupOrder(es[..1]) == [north] && Members(es[..1], south) == [];
    assert Members(es[..1], unknown) == [];
    assert Members(es[..2], unknown) == [];
    assert GroupOrder(es[..2]) == [north, south] && Members(es[..2], south) == ["Elves"];
    assert GroupOrder(es[..3]) == [north, south] && Members(es[..3], south) == ["Elves", "Dwarfs"];
    assert Members(es[..3], unknown) == [];
    assert es[..4] == es;
  }
}
