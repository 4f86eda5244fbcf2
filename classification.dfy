/**
 * The two table generators of update_classification.py:
 * `generate_classification_table` (one table for the whole league) and
 * `generate_overall_classification` (one table per division). Each builds
 * a team map by seeding it from the fixture sheets, adding every played
 * entry to it, and sorting its items by the configured criteria. The
 * tables are returned as rows; rendering them as markdown and writing the
 * file are not part of this model.
 */
module Classification {
  import opened Wrappers
  import opened Seqs
  import opened PyDict
  import opened Config
  import opened Results
  import opened Standings
  import opened Ranking

  /** The team map of a league: seeded from the sheets, then every entry added. */
  function Totals(leagueData: Dict<Dict<MatchEntry>>, sheets: seq<Sheet>): (r: Dict<Stats>)
    requires ValidLeague(leagueData)
    ensures r.Valid()
  {
    Tally(Seeded(Empty(), sheets), AllEntries(leagueData))
  }

  /** The rows of the classification table, best first. */
  function Standing(leagueData: Dict<Dict<MatchEntry>>, sheets: seq<Sheet>, cs: seq<Criterion>): seq<Row>
    requires ValidLeague(leagueData)
  {
    Sorted(Totals(leagueData, sheets).Entries(), cs)
  }

  /**
   * A team has a line exactly when it is named on a sheet or has played,
   * and its line is the sum of its own entries: a seeded team starts from
   * zero and is never reset.
   */
  lemma TotalsSpec(leagueData: Dict<Dict<MatchEntry>>, sheets: seq<Sheet>, team: string)
    requires ValidLeague(leagueData)
    ensures team in Totals(leagueData, sheets).items <==>
      (InSheets(sheets, team) || EntriesFor(AllEntries(leagueData), team) != [])
    ensures team in Totals(leagueData, sheets).items ==>
      Totals(leagueData, sheets).items[team] == Sums(EntriesFor(AllEntries(leagueData), team))
  {
    var empty: Dict<Stats> := Empty();
    var seeded := Seeded(empty, sheets);
    var es := AllEntries(leagueData);
    assert team in seeded.items <==> InSheets(sheets, team) by {
      SeededKeys(empty, sheets, team);
    }
    TallyKeys(seeded, es, team);
    if team in Tally(seeded, es).items {
      assert BaseOf(seeded, team) == Zero by {
        if team in seeded.items {
          SeededValues(empty, sheets, team);
        }
      }
      TallySpec(seeded, es, team);
      PlusZero(Sums(EntriesFor(es, team)));
    }
  }

  /**
   * The team map lists the seeded teams first, in seeding order; a team
   * first met in the entries comes after all of them. On equal keys the
   * table keeps this order.
   */
  lemma TotalsOrder(leagueData: Dict<Dict<MatchEntry>>, sheets: seq<Sheet>)
    requires ValidLeague(leagueData)
    ensures var s, t := Seeded(Empty(), sheets).keys, Totals(leagueData, sheets).keys;
      |s| <= |t| && t[..|s|] == s &&
      forall i :: |s| <= i < |t| ==> !InSheets(sheets, t[i])
  {
    var empty: Dict<Stats> := Empty();
    var seeded := Seeded(empty, sheets);
    var t := Totals(leagueData, sheets);
    TallyOrder(seeded, AllEntries(leagueData));
    forall i | |seeded.keys| <= i < |t.keys|
      ensures !InSheets(sheets, t.keys[i])
    {
      var x := t.keys[i];
      SeededKeys(empty, sheets, x);
      assert x !in seeded.items;
    }
  }

  lemma PlusZero(s: Stats)
    ensures Plus(Zero, s) == s
  {
  }

  /** A row of the table is a team with a line, paired with that line. */
  lemma StandingRows(leagueData: Dict<Dict<MatchEntry>>, sheets: seq<Sheet>, cs: seq<Criterion>, team: string, s: Stats)
    requires ValidLeague(leagueData)
    ensures (team, s) in Standing(leagueData, sheets, cs) <==>
      (InSheets(sheets, team) || EntriesFor(AllEntries(leagueData), team) != []) &&
      s == Sums(EntriesFor(AllEntries(leagueData), team))
  {
    var d := Totals(leagueData, sheets);
    TotalsSpec(leagueData, sheets, team);
    assert (team, s) in Standing(leagueData, sheets, cs) <==> (team, s) in d.Entries() by {
      SortedPermutes(d.Entries(), cs);
      assert (team, s) in multiset(Standing(leagueData, sheets, cs)) <==> (team, s) in multiset(d.Entries());
    }
    EntriesMembers(d, team, s);
  }

  /** A pair is among a dictionary's items exactly when the key is present with that value. */
  lemma EntriesMembers<V>(d: Dict<V>, k: string, v: V)
    requires d.Valid()
    ensures (k, v) in d.Entries() <==> k in d.items && d.items[k] == v
  {
    var es := d.Entries();
    if (k, v) in es {
      var i :| 0 <= i < |es| && es[i] == (k, v);
      assert d.keys[i] == k;
    }
    if k in d.items && d.items[k] == v {
      var i :| 0 <= i < |d.keys| && d.keys[i] == k;
      assert es[i] == (k, v);
    }
  }

  /** A team appears in the table once at most. */
  lemma StandingOnce(leagueData: Dict<Dict<MatchEntry>>, sheets: seq<Sheet>, cs: seq<Criterion>)
    requires ValidLeague(leagueData)
    ensures var t := Standing(leagueData, sheets, cs);
      forall i, j :: 0 <= i < j < |t| ==> t[i].0 != t[j].0
  {
    var d := Totals(leagueData, sheets);
    var t := Standing(leagueData, sheets, cs);
    assert Distinct(t) by {
      EntriesDistinct(d);
      SortedPermutes(d.Entries(), cs);
      DistinctPermutation(t, d.Entries());
    }
    forall i, j | 0 <= i < j < |t|
      ensures t[i].0 != t[j].0
    {
      assert t[i] in d.Entries() && t[j] in d.Entries() by {
        SortedPermutes(d.Entries(), cs);
        assert t[i] in multiset(t) && t[j] in multiset(t);
      }
      EntriesMembers(d, t[i].0, t[i].1);
      EntriesMembers(d, t[j].0, t[j].1);
    }
  }

  /** A dictionary's items are all different, as its keys are. */
  lemma EntriesDistinct<V>(d: Dict<V>)
    requires d.Valid()
    ensures Distinct(d.Entries())
  {
    var es := d.Entries();
    forall i, j | 0 <= i < j < |es|
      ensures es[i] != es[j]
    {
      assert es[i].0 == d.keys[i] && es[j].0 == d.keys[j];
    }
  }

  /**
   * The table is in criteria order, and teams with equal keys keep the
   * order in which they entered the team map.
   */
  lemma StandingSorted(leagueData: Dict<Dict<MatchEntry>>, sheets: seq<Sheet>, cs: seq<Criterion>)
    requires ValidLeague(leagueData)
    ensures Ordered(Standing(leagueData, sheets, cs), cs)
    ensures forall k :: WithKey(Standing(leagueData, sheets, cs), k, cs) == WithKey(Totals(leagueData, sheets).Entries(), k, cs)
  {
    var es := Totals(leagueData, sheets).Entries();
    SortedOrdered(es, cs);
    forall k
      ensures WithKey(Standing(leagueData, sheets, cs), k, cs) == WithKey(es, k, cs)
    {
      SortedStable(es, cs, k);
    }
  }

  /** Every row's wins, draws and losses add up to the number of the team's entries. */
  lemma StandingCounts(leagueData: Dict<Dict<MatchEntry>>, sheets: seq<Sheet>, cs: seq<Criterion>, i: nat)
    requires ValidLeague(leagueData) && i < |Standing(leagueData, sheets, cs)|
    ensures var (team, s) := Standing(leagueData, sheets, cs)[i];
      s.wins + s.draws + s.losses == |EntriesFor(AllEntries(leagueData), team)|
  {
    var row := Standing(leagueData, sheets, cs)[i];
    StandingRows(leagueData, sheets, cs, row.0, row.1);
    ResultsPartition(EntriesFor(AllEntries(leagueData), row.0));
  }

  /**
   * The entries of the league in the classification test, dates in order:
   * on the first date Team A beats Team B 2-1, on the second they draw 1-1.
   */
  function SampleEntries(a: string, b: string): seq<TeamEntry>
  {
    [(a, MatchEntry(2, Win, b, 3)), (b, MatchEntry(1, Lose, a, 0)),
     (a, MatchEntry(1, Draw, b, 1)), (b, MatchEntry(1, Draw, a, 1))]
  }

  lemma SampleEntriesFor(a: string, b: string)
    requires a != b
    ensures EntriesFor(SampleEntries(a, b), a) == [MatchEntry(2, Win, b, 3), MatchEntry(1, Draw, b, 1)]
    ensures EntriesFor(SampleEntries(a, b), b) == [MatchEntry(1, Lose, a, 0), MatchEntry(1, Draw, a, 1)]
  {
    var es := SampleEntries(a, b);
    var ea1, eb1, ea2, eb2 := es[0].1, es[1].1, es[2].1, es[3].1;
    assert EntriesFor(es[..1], a) == [ea1] && EntriesFor(es[..1], b) == [] by {
      assert |es[..1][..0]| == 0 && es[..1][0] == es[0];
    }
    assert EntriesFor(es[..2], a) == [ea1] && EntriesFor(es[..2], b) == [eb1] by {
      assert es[..2][..1] == es[..1] && es[..2][1] == es[1];
    }
    assert EntriesFor(es[..3], a) == [ea1, ea2] && EntriesFor(es[..3], b) == [eb1] by {
      assert es[..3][..2] == es[..2] && es[..3][2] == es[2];
    }
    assert es[..3] == es[..|es| - 1];
  }

  /** Two entries added, in order, to a line: the line plus their totals. */
  lemma SumsTwo(base: Stats, x: MatchEntry, y: MatchEntry)
    ensures Plus(base, Sums([x, y])) == AddEntry(AddEntry(base, x), y)
  {
    var xs := [x, y];
    var x0 := xs[..0];
    NoEntries(x0, base);
    SumsSnoc(base, x0, x);
    assert x0 + [x] == xs[..1];
    SumsSnoc(base, xs[..1], y);
    assert xs[..1] + [y] == xs;
  }

  /** Team A: 4 points, one win, one draw, no loss, 3 touchdowns; Team B: 1 point, no win, one draw, one loss, 2 touchdowns. */
  lemma SampleSums(a: string, b: string)
    requires a != b
    ensures Sums(EntriesFor(SampleEntries(a, b), a)) == Stats(4, 1, 1, 0, 3)
    ensures Sums(EntriesFor(SampleEntries(a, b), b)) == Stats(1, 0, 1, 1, 2)
  {
    SampleEntriesFor(a, b);
    var xa := [MatchEntry(2, Win, b, 3), MatchEntry(1, Draw, b, 1)];
    var xb := [MatchEntry(1, Lose, a, 0), MatchEntry(1, Draw, a, 1)];
    assert Sums(xa) == Stats(4, 1, 1, 0, 3) by {
      ResultsDiffer();
      SumsTwo(Zero, xa[0], xa[1]);
      assert [xa[0], xa[1]] == xa;
      PlusZero(Sums(xa));
    }
    assert Sums(xb) == Stats(1, 0, 1, 1, 2) by {
      ResultsDiffer();
      SumsTwo(Zero, xb[0], xb[1]);
      assert [xb[0], xb[1]] == xb;
      PlusZero(Sums(xb));
    }
  }

  /** Under the default criteria Team A's key is the smaller: more points. */
  lemma SampleKeys(a: string, b: string)
    ensures LexLess(Key((a, Stats(4, 1, 1, 0, 3)), DefaultCriteria()), Key((b, Stats(1, 0, 1, 1, 2)), DefaultCriteria()))
  {
    assert Key((a, Stats(4, 1, 1, 0, 3)), DefaultCriteria()) == [-4, -3, -1];
  }

  /**
   * The classification test: in any league whose entries are those of
   * `SampleEntries`, with no fixture sheets and the default criteria, Team A
   * has 4 points, W1 D1 L0 and 3 touchdowns, Team B has 1 point, and Team A
   * is placed above Team B.
   */
  lemma SampleTable(leagueData: Dict<Dict<MatchEntry>>, a: string, b: string)
    requires ValidLeague(leagueData) && a != b && AllEntries(leagueData) == SampleEntries(a, b)
    ensures var t := Standing(leagueData, [], DefaultCriteria());
      (a, Stats(4, 1, 1, 0, 3)) in t && (b, Stats(1, 0, 1, 1, 2)) in t &&
      forall i, j :: 0 <= i < |t| && 0 <= j < |t| && t[i].0 == a && t[j].0 == b ==> i < j
  {
    var cs := DefaultCriteria();
    var t := Standing(leagueData, [], cs);
    var ra, rb := (a, Stats(4, 1, 1, 0, 3)), (b, Stats(1, 0, 1, 1, 2));
    assert ra in t && rb in t by {
      SampleSums(a, b);
      SampleEntriesFor(a, b);
      StandingRows(leagueData, [], cs, a, ra.1);
      StandingRows(leagueData, [], cs, b, rb.1);
    }
    SampleKeys(a, b);
    StandingSorted(leagueData, [], cs);
    forall i, j | 0 <= i < |t| && 0 <= j < |t| && t[i].0 == a && t[j].0 == b
      ensures i < j
    {
      assert t[i] == ra && t[j] == rb by {
        SampleSums(a, b);
        StandingRows(leagueData, [], cs, a, t[i].1);
        StandingRows(leagueData, [], cs, b, t[j].1);
      }
      var ki, kj := Key(t[i], cs), Key(t[j], cs);
      assert j < i ==> !LexLess(ki, kj);
    }
  }

  /** The steps both generators share: seed, add every entry, sort. */
  method BuildTable(leagueData: Dict<Dict<MatchEntry>>, sheets: seq<Sheet>, criteria: seq<Criterion>)
    returns (table: seq<Row>)
    requires ValidLeague(leagueData)
    ensures table == Standing(leagueData, sheets, criteria)
  {
    var teamsStats := SeedFromFixtures(sheets);
    teamsStats := Aggregate(leagueData, teamsStats);
    table := Sorted(teamsStats.Entries(), criteria);
  }

  /** `generate_classification_table`: the rows it renders. */
  method ClassificationTable(leagueData: Dict<Dict<MatchEntry>>, sheets: seq<Sheet>, settingsFile: Option<Settings>)
    returns (table: seq<Row>)
    requires ValidLeague(leagueData)
    ensures table == Standing(leagueData, sheets, SortingCriteria(LoadSettings(settingsFile)))
  {
    var settings := LoadSettings(settingsFile);
    var criteria := SortingCriteria(settings);
    table := BuildTable(leagueData, sheets, criteria);
  }

  /** Every division map is a valid league, and the map of divisions a valid dictionary. */
  ghost predicate ValidDivisions(leagueData: Dict<Dict<Dict<MatchEntry>>>)
  {
    leagueData.Valid() && forall k :: k in leagueData.items ==> ValidLeague(leagueData.items[k])
  }

  /** The sheets of a division's fixtures folder; none when the folder does not exist. */
  function SheetsOf(fixtures: map<string, seq<Sheet>>, division: string): seq<Sheet>
  {
    if division in fixtures then fixtures[division] else []
  }

  /** The first `n` tables are the standings of the first `n` divisions, in order. */
  ghost predicate TablesUpTo(leagueData: Dict<Dict<Dict<MatchEntry>>>, fixtures: map<string, seq<Sheet>>,
                             cs: seq<Criterion>, tables: seq<(string, seq<Row>)>, n: nat)
    requires ValidDivisions(leagueData) && n <= |leagueData.keys|
  {
    |tables| == n &&
    forall i :: 0 <= i < n ==>
      tables[i].0 == leagueData.keys[i] &&
      tables[i].1 == Standing(leagueData.items[leagueData.keys[i]], SheetsOf(fixtures, leagueData.keys[i]), cs)
  }

  /** Appending the next division's standing extends the tables by one division. */
  lemma TablesSnoc(leagueData: Dict<Dict<Dict<MatchEntry>>>, fixtures: map<string, seq<Sheet>>,
                   cs: seq<Criterion>, tables: seq<(string, seq<Row>)>, n: nat, table: seq<Row>)
    requires ValidDivisions(leagueData) && n < |leagueData.keys|
    requires TablesUpTo(leagueData, fixtures, cs, tables, n)
    requires table == Standing(leagueData.items[leagueData.keys[n]], SheetsOf(fixtures, leagueData.keys[n]), cs)
    ensures TablesUpTo(leagueData, fixtures, cs, tables + [(leagueData.keys[n], table)], n + 1)
  {
  }

  /** `generate_overall_classification`: one table per division, in the divisions' order. */
  method OverallClassification(leagueData: Dict<Dict<Dict<MatchEntry>>>, fixtures: map<string, seq<Sheet>>,
                               settingsFile: Option<Settings>)
    returns (tables: seq<(string, seq<Row>)>)
    requires ValidDivisions(leagueData)
    ensures |tables| == |leagueData.keys|
    ensures forall i :: 0 <= i < |tables| ==>
      tables[i].0 == leagueData.keys[i] &&
      tables[i].1 == Standing(leagueData.items[leagueData.keys[i]], SheetsOf(fixtures, leagueData.keys[i]),
                              SortingCriteria(LoadSettings(settingsFile)))
  {
    var settings := LoadSettings(settingsFile);
    var criteria := SortingCriteria(settings);
    tables := [];
    for n := 0 to |leagueData.keys|
      invariant TablesUpTo(leagueData, fixtures, criteria, tables, n)
    {
      var division := leagueData.keys[n];
      var table := BuildTable(leagueData.items[division], SheetsOf(fixtures, division), criteria);
      TablesSnoc(leagueData, fixtures, criteria, tables, n, table);
      tables := tables + [(division, table)];
    }
  }
}
