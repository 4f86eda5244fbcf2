/**
 * The result derivation of update_classification.py (`process_date_folder`).
 *
 * Each match sheet of a date names two teams (columns B and C) and their
 * scores. A sheet with no score at all is a match not yet played; an empty
 * score next to a filled one counts as 0. The scores decide win, lose or
 * draw, the points come from the settings' points table, and each side that
 * is not named "nan" gets an entry in the date's team map. A result missing
 * from the points table raises an error that the per-sheet handler catches:
 * the sheet's remaining writes are skipped.
 */
module Results {
  import opened Wrappers
  import opened Seqs
  import opened PyDict
  import opened Config

  /** The text an empty name cell reads as. */
  const Nan := "nan"

  /** A match sheet as read: both team names and both scores, `None` for an empty score cell. */
  datatype Record = Record(teamB: string, teamC: string, scoreB: Option<nat>, scoreC: Option<nat>)

  /** The entry the date's map holds for one team (the pass-through columns are not modelled). */
  datatype MatchEntry = MatchEntry(touchdowns: nat, result: string, rival: string, points: int)

  /** The two sides of a sheet. */
  datatype Side = B | C

  /** A sheet with at least one score counts as played. */
  predicate Played(rec: Record)
  {
    rec.scoreB.Some? || rec.scoreC.Some?
  }

  function TeamOf(rec: Record, side: Side): string
  {
    if side == B then rec.teamB else rec.teamC
  }

  function RivalOf(rec: Record, side: Side): string
  {
    if side == B then rec.teamC else rec.teamB
  }

  /** A side's touchdowns: its score, an empty cell counting as 0. */
  function ScoreOf(rec: Record, side: Side): nat
  {
    (if side == B then rec.scoreB else rec.scoreC).GetOr(0)
  }

  /** The results of side B and side C for scores `b` and `c`. */
  function Outcomes(b: nat, c: nat): (r: (string, string))
    ensures r.0 == Win <==> b > c
    ensures r.0 == Lose <==> b < c
    ensures r.0 == Draw <==> b == c
    ensures r.1 == if b > c then Lose else if b < c then Win else Draw
  {
    ResultsDiffer();
    if b > c then (Win, Lose)
    else if b < c then (Lose, Win)
    else (Draw, Draw)
  }

  /** Exchanging the two scores exchanges the two results: a win always faces a loss, a draw a draw. */
  lemma OutcomesSwap(b: nat, c: nat)
    ensures Outcomes(c, b) == (Outcomes(b, c).1, Outcomes(b, c).0)
    ensures Outcomes(b, c).0 == Win <==> Outcomes(b, c).1 == Lose
    ensures Outcomes(b, c).0 == Draw <==> Outcomes(b, c).1 == Draw
  {
    ResultsDiffer();
  }

  function ResultOf(rec: Record, side: Side): string
  {
    var (resultB, resultC) := Outcomes(ScoreOf(rec, B), ScoreOf(rec, C));
    if side == B then resultB else resultC
  }

  /** The entry written for `side`: its own score, its result and its value, the other side as rival. */
  function EntryOf(rec: Record, side: Side, points: map<string, int>): MatchEntry
    requires ResultOf(rec, side) in points
  {
    MatchEntry(ScoreOf(rec, side), ResultOf(rec, side), RivalOf(rec, side), points[ResultOf(rec, side)])
  }

  /**
   * Whether the sheet writes `side`'s entry: the match was played, the side
   * is named, its result has a value, and for side C side B's lookup did
   * not fail first.
   */
  predicate Writes(rec: Record, side: Side, points: map<string, int>)
  {
    Played(rec) && TeamOf(rec, side) != Nan && ResultOf(rec, side) in points &&
    (side == C ==> rec.teamB == Nan || ResultOf(rec, B) in points)
  }

  /** A result the derivation can produce. */
  predicate IsResult(s: string)
  {
    s == Win || s == Draw || s == Lose
  }

  /** Every entry of the map holds a derived result and the value the points table gives it. */
  ghost predicate Consistent(d: Dict<MatchEntry>, points: map<string, int>)
  {
    forall k :: k in d.items ==>
      IsResult(d.items[k].result) && d.items[k].result in points && d.items[k].points == points[d.items[k].result]
  }

  /** `date_data[team] = {...}` for one named side of a sheet. */
  function WriteSide(d: Dict<MatchEntry>, rec: Record, side: Side, points: map<string, int>): (r: Dict<MatchEntry>)
    requires d.Valid() && TeamOf(rec, side) != Nan && ResultOf(rec, side) in points
    ensures r.Valid()
    ensures forall k :: k in r.items <==> k in d.items || k == TeamOf(rec, side)
    ensures r.items[TeamOf(rec, side)] == EntryOf(rec, side, points)
    ensures forall k :: k in d.items && k != TeamOf(rec, side) ==> r.items[k] == d.items[k]
    ensures |d.keys| <= |r.keys| && r.keys[..|d.keys|] == d.keys
    ensures Consistent(d, points) ==> Consistent(r, points)
  {
    var r := d.Set(TeamOf(rec, side), EntryOf(rec, side, points));
    assert r.keys[..|d.keys|] == d.keys;
    assert IsResult(ResultOf(rec, side));
    r
  }

  /** The date's team map after one sheet. */
  function ApplyRecord(d: Dict<MatchEntry>, rec: Record, points: map<string, int>): (r: Dict<MatchEntry>)
    requires d.Valid()
    ensures r.Valid()
  {
    if !Played(rec) || (rec.teamB != Nan && ResultOf(rec, B) !in points) then d
    else
      var afterB := if rec.teamB == Nan then d else WriteSide(d, rec, B, points);
      if rec.teamC == Nan || ResultOf(rec, C) !in points then afterB
      else WriteSide(afterB, rec, C, points)
  }

  /** A sheet that writes neither side (unplayed, both sides "nan", or no value for the results) changes nothing. */
  lemma ApplyUnwritten(d: Dict<MatchEntry>, rec: Record, points: map<string, int>)
    requires d.Valid() && !Writes(rec, B, points) && !Writes(rec, C, points)
    ensures ApplyRecord(d, rec, points) == d
  {
  }

  /** Each side the sheet writes holds its own entry; side C's entry wins when both sides carry the same name. */
  lemma ApplyEntries(d: Dict<MatchEntry>, rec: Record, points: map<string, int>)
    requires d.Valid()
    ensures var r := ApplyRecord(d, rec, points);
      (Writes(rec, C, points) ==> rec.teamC in r.items && r.items[rec.teamC] == EntryOf(rec, C, points)) &&
      (Writes(rec, B, points) && !(Writes(rec, C, points) && rec.teamC == rec.teamB) ==>
        rec.teamB in r.items && r.items[rec.teamB] == EntryOf(rec, B, points))
  {
  }

  /** No key disappears, and the only keys that can appear are the sheet's named sides. */
  lemma ApplyKeys(d: Dict<MatchEntry>, rec: Record, points: map<string, int>)
    requires d.Valid()
    ensures var r := ApplyRecord(d, rec, points);
      (forall k :: k in d.items ==> k in r.items) &&
      (forall k :: k in r.items ==> k in d.items || (k != Nan && (k == rec.teamB || k == rec.teamC)))
  {
  }

  /** Every entry other than the named sides', and any "nan" entry, stays as it was. */
  lemma ApplyUnchanged(d: Dict<MatchEntry>, rec: Record, points: map<string, int>, k: string)
    requires d.Valid() && k in d.items && (k == Nan || (k != rec.teamB && k != rec.teamC))
    ensures k in ApplyRecord(d, rec, points).items && ApplyRecord(d, rec, points).items[k] == d.items[k]
  {
  }

  /** The keys already present keep their positions; new ones go after them. */
  lemma ApplyOrder(d: Dict<MatchEntry>, rec: Record, points: map<string, int>)
    requires d.Valid()
    ensures var r := ApplyRecord(d, rec, points); |d.keys| <= |r.keys| && r.keys[..|d.keys|] == d.keys
  {
    if Played(rec) && !(rec.teamB != Nan && ResultOf(rec, B) !in points) {
      var afterB := if rec.teamB == Nan then d else WriteSide(d, rec, B, points);
      if rec.teamC != Nan && ResultOf(rec, C) in points {
        PrefixTrans(d.keys, afterB.keys, WriteSide(afterB, rec, C, points).keys);
      }
    }
  }

  /** A map whose entries agree with the points table still does after the sheet. */
  lemma ApplyConsistent(d: Dict<MatchEntry>, rec: Record, points: map<string, int>)
    requires d.Valid()
    ensures Consistent(d, points) ==> Consistent(ApplyRecord(d, rec, points), points)
  {
  }

  /** The date's team map after the sheets `recs`, in order. */
  function ProcessAll(d: Dict<MatchEntry>, recs: seq<Record>, points: map<string, int>): (r: Dict<MatchEntry>)
    requires d.Valid()
    ensures r.Valid()
    ensures forall k :: k in d.items ==> k in r.items
    ensures Nan in d.items <==> Nan in r.items
    ensures Nan in d.items ==> r.items[Nan] == d.items[Nan]
    ensures Consistent(d, points) ==> Consistent(r, points)
  {
    if recs == [] then d
    else
      var prev := ProcessAll(d, recs[..|recs| - 1], points);
      ApplyKeys(prev, recs[|recs| - 1], points);
      assert Nan in prev.items ==> ApplyRecord(prev, recs[|recs| - 1], points).items[Nan] == prev.items[Nan] by {
        if Nan in prev.items {
          ApplyUnchanged(prev, recs[|recs| - 1], points, Nan);
        }
      }
      ApplyConsistent(prev, recs[|recs| - 1], points);
      ApplyRecord(prev, recs[|recs| - 1], points)
  }

  /** A date whose sheets are all unplayed keeps its team map as it was. */
  lemma {:induction false} UnplayedUnchanged(d: Dict<MatchEntry>, recs: seq<Record>, points: map<string, int>)
    requires d.Valid()
    requires forall i :: 0 <= i < |recs| ==> !Played(recs[i])
    ensures ProcessAll(d, recs, points) == d
  {
    if recs != [] {
      UnplayedUnchanged(d, recs[..|recs| - 1], points);
    }
  }

  /**
   * The body of the per-sheet handler: skip an unplayed sheet, read an
   * empty score as 0, derive both results, and write each named side,
   * giving up on the sheet at the first result the points table lacks.
   */
  method ProcessRecord(dateData: Dict<MatchEntry>, rec: Record, settings: Settings) returns (data: Dict<MatchEntry>)
    requires dateData.Valid()
    ensures data == ApplyRecord(dateData, rec, settings.leaguePoints)
  {
    data := dateData;
    var tdBEmpty, tdCEmpty := rec.scoreB.None?, rec.scoreC.None?;
    if tdBEmpty && tdCEmpty {
      return;
    }
    var touchdownsB := if tdBEmpty then 0 else rec.scoreB.value;
    var touchdownsC := if tdCEmpty then 0 else rec.scoreC.value;
    var resultB, resultC;
    if touchdownsB > touchdownsC {
      resultB, resultC := Win, Lose;
    } else if touchdownsB < touchdownsC {
      resultB, resultC := Lose, Win;
    } else {
      resultB, resultC := Draw, Draw;
    }
    assert touchdownsB == ScoreOf(rec, B) && touchdownsC == ScoreOf(rec, C);
    assert resultB == ResultOf(rec, B) && resultC == ResultOf(rec, C);
    var leaguePoints := settings.leaguePoints;
    if rec.teamB != Nan {
      if resultB !in leaguePoints {
        return;
      }
      data := data.Set(rec.teamB, MatchEntry(touchdownsB, resultB, rec.teamC, leaguePoints[resultB]));
      assert data == WriteSide(dateData, rec, B, leaguePoints);
    }
    ghost var afterB := data;
    if rec.teamC != Nan {
      if resultC !in leaguePoints {
        return;
      }
      data := data.Set(rec.teamC, MatchEntry(touchdownsC, resultC, rec.teamB, leaguePoints[resultC]));
      assert data == WriteSide(afterB, rec, C, leaguePoints);
    }
  }

  /** `process_date_folder`: the sheets of one date, in order, written into that date's team map. */
  method ProcessDateFolder(records: seq<Record>, dateData: Dict<MatchEntry>, settings: Settings) returns (data: Dict<MatchEntry>)
    requires dateData.Valid()
    ensures data == ProcessAll(dateData, records, settings.leaguePoints)
  {
    data := dateData;
    for k := 0 to |records|
      invariant data.Valid() && data == ProcessAll(dateData, records[..k], settings.leaguePoints)
    {
      assert records[..k + 1][..k] == records[..k];
      data := ProcessRecord(data, records[k], settings);
    }
    assert records[..|records|] == records;
  }
}
