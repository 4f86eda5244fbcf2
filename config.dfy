/**
 * The settings of update_classification.py (`load_settings`): a points
 * table indexed by match result and the list of criteria the standings
 * are sorted by. The JSON file is read elsewhere; here a missing file is
 * `None` and a present one is its parsed content.
 */
module Config {
  import opened Wrappers

  const Win := "win"
  const Draw := "draw"
  const Lose := "lose"
  const Desc := "desc"

  /** The three result names are different words. */
  lemma ResultsDiffer()
    ensures Win != Draw && Win != Lose && Draw != Lose
  {
    assert Win[0] != Lose[0] && Win[0] != Draw[0] && Lose[0] != Draw[0];
  }

  /** One sorting criterion: a statistics field and an order ("desc" or anything else). */
  datatype Criterion = Criterion(field: string, order: string)

  /**
   * The settings object. `leaguePoints` is its "league_points" table (a file
   * without that table behaves like an empty one: every lookup fails);
   * `sortingCriteria` is `None` when the file has no "sorting_criteria" key.
   */
  datatype Settings = Settings(leaguePoints: map<string, int>, sortingCriteria: Option<seq<Criterion>>)

  /** points, then touchdowns, then wins, all descending. */
  function DefaultCriteria(): seq<Criterion>
  {
    [Criterion("points", Desc), Criterion("touchdowns", Desc), Criterion("wins", Desc)]
  }

  /** The settings used when the file is missing. */
  function DefaultSettings(): Settings
  {
    Settings(map[Win := 3, Draw := 1, Lose := 0], Some(DefaultCriteria()))
  }

  /** `load_settings`: the file's content, or the defaults when there is no file. */
  function LoadSettings(file: Option<Settings>): (s: Settings)
    ensures file.Some? ==> s == file.value
    ensures file.None? ==> s.leaguePoints == map[Win := 3, Draw := 1, Lose := 0]
    ensures file.None? ==> s.sortingCriteria == Some(DefaultCriteria())
  {
    file.GetOr(DefaultSettings())
  }

  /**
   * `settings.get("sorting_criteria", …)`: the file's criteria when it has
   * some, otherwise the same three defaults a missing file gives.
   */
  function SortingCriteria(s: Settings): (cs: seq<Criterion>)
    ensures s.sortingCriteria.Some? ==> cs == s.sortingCriteria.value
    ensures s.sortingCriteria.None? ==> cs == DefaultCriteria() && cs == LoadSettings(None).sortingCriteria.value
  {
    s.sortingCriteria.GetOr(DefaultCriteria())
  }

  /** Without a file a win is worth 3, a draw 1 and a loss 0, and every result has a value. */
  lemma DefaultPoints()
    ensures var pts := LoadSettings(None).leaguePoints;
      Win in pts && Draw in pts && Lose in pts && pts[Win] == 3 && pts[Draw] == 1 && pts[Lose] == 0
    ensures SortingCriteria(LoadSettings(None)) ==
      [Criterion("points", "desc"), Criterion("touchdowns", "desc"), Criterion("wins", "desc")]
  {
  }
}
