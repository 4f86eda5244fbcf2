/**
 * The circle method of generate_league.py (`generate_division_schedule`).
 *
 * An odd division is padded with the placeholder "BYE"; each round seats
 * position i against position n-1-i, drops every pair that holds the
 * placeholder, and then rotates every team but the first one step.
 */
module Scheduler {

  type Team = string
  type Match = (Team, Team)
  type Round = seq<Match>

  const Bye: Team := "BYE"

  /** The seating after the placeholder is appended to an odd division. */
  function Padded(teams: seq<Team>): (p: seq<Team>)
    ensures |p| % 2 == 0
    ensures |p| == if |teams| % 2 == 1 then |teams| + 1 else |teams|
    ensures forall i :: 0 <= i < |teams| ==> p[i] == teams[i]
    ensures |teams| < |p| ==> p[|teams|] == Bye
  {
    if |teams| % 2 == 1 then teams + [Bye] else teams
  }

  /** One rotation step: `[t[0]] + [t[-1]] + t[1:-1]`. */
  function Rotate(t: seq<Team>): (r: seq<Team>)
    requires |t| >= 2
    ensures |r| == |t| && r[0] == t[0]
  {
    [t[0]] + [t[|t| - 1]] + t[1..|t| - 1]
  }

  /** Rotation only moves teams around: the same teams, as often as before. */
  lemma RotatePermutes(t: seq<Team>)
    requires |t| >= 2
    ensures multiset(Rotate(t)) == multiset(t)
  {
    assert t == [t[0]] + t[1..|t| - 1] + [t[|t| - 1]];
  }

  /** The seating order of round `r` (0-based): `r` rotations of `p`. */
  function Rotated(p: seq<Team>, r: nat): (t: seq<Team>)
    requires |p| >= 2
    ensures |t| == |p| && t[0] == p[0]
  {
    if r == 0 then p else Rotate(Rotated(p, r - 1))
  }

  /** The matches of the first `i` seats of seating `t`, placeholder pairs dropped. */
  function Pairs(t: seq<Team>, i: nat): Round
    requires |t| % 2 == 0 && i <= |t| / 2
  {
    if i == 0 then []
    else
      var team1, team2 := t[i - 1], t[|t| - i];
      Pairs(t, i - 1) + (if team1 != Bye && team2 != Bye then [(team1, team2)] else [])
  }

  /** Seat i gets added to the matches of the first i seats. */
  lemma PairsStep(t: seq<Team>, i: nat)
    requires |t| % 2 == 0 && i < |t| / 2
    ensures Pairs(t, i + 1) == Pairs(t, i) + (if t[i] != Bye && t[|t| - 1 - i] != Bye then [(t[i], t[|t| - 1 - i])] else [])
  {
  }

  /** The matches of one round with seating `t`. */
  function RoundOf(t: seq<Team>): Round
    requires |t| % 2 == 0
  {
    Pairs(t, |t| / 2)
  }

  /** The first `k` rounds generated from the padded seating `p`. */
  function Rounds(p: seq<Team>, k: nat): (s: seq<Round>)
    requires |p| >= 2 && |p| % 2 == 0
    ensures |s| == k
  {
    if k == 0 then [] else Rounds(p, k - 1) + [RoundOf(Rotated(p, k - 1))]
  }

  /**
   * The schedule the circle method produces for `teams`: n-1 rounds for an
   * even n, n rounds for an odd n (the placeholder makes it even).
   */
  function Schedule(teams: seq<Team>): (s: seq<Round>)
    ensures |s| == if |teams| == 0 then 0 else if |teams| % 2 == 1 then |teams| else |teams| - 1
  {
    var p := Padded(teams);
    if |p| == 0 then [] else Rounds(p, |p| - 1)
  }

  /** One more rotation gives the seating of the next round. */
  lemma RotatedStep(p: seq<Team>, r: nat, order: seq<Team>)
    requires |p| >= 2 && order == Rotated(p, r)
    ensures [order[0]] + [order[|p| - 1]] + order[1..|p| - 1] == Rotated(p, r + 1)
  {
  }

  /** Appending the next round extends the schedule by one round. */
  lemma RoundsStep(p: seq<Team>, r: nat, schedule: seq<Round>, roundMatches: Round)
    requires |p| >= 2 && |p| % 2 == 0
    requires schedule == Rounds(p, r) && roundMatches == RoundOf(Rotated(p, r))
    ensures schedule + [roundMatches] == Rounds(p, r + 1)
  {
  }

  /** The number of matches of a schedule: the sum of its round lengths. */
  function MatchCount(s: seq<Round>): nat
  {
    if s == [] then 0 else MatchCount(s[..|s| - 1]) + |s[|s| - 1]|
  }

  /** The inner loop of `generate_division_schedule`: seat i against seat n-1-i, skipping the placeholder. */
  method PairRound(order: seq<Team>) returns (roundMatches: Round)
    requires |order| % 2 == 0
    ensures roundMatches == RoundOf(order)
  {
    var n := |order|;
    roundMatches := [];
    var i := 0;
    while i < n / 2
      invariant i <= n / 2
      invariant roundMatches == Pairs(order, i)
    {
      var team1, team2 := order[i], order[n - 1 - i];
      PairsStep(order, i);
      if team1 != Bye && team2 != Bye {
        roundMatches := roundMatches + [(team1, team2)];
      }
      i := i + 1;
    }
  }

  /**
   * `generate_division_schedule`. The source appends the placeholder to the
   * list it is given; both of its callers hand it a fresh list, so the
   * padding (`Padded`) is done here on a local copy. The rounds are built
   * one after the other, rotating the seating after each.
   */
  method GenerateDivisionSchedule(teams: seq<Team>) returns (schedule: seq<Round>)
    ensures schedule == Schedule(teams)
  {
    var order := Padded(teams);
    var n := |order|;
    schedule := [];
    if n == 0 {
      return;
    }
    ghost var p := order;
    var roundNum := 0;
    while roundNum < n - 1
      invariant |order| == n && roundNum <= n - 1
      invariant order == Rotated(p, roundNum) && schedule == Rounds(p, roundNum)
    {
      var roundMatches := PairRound(order);
      schedule := schedule + [roundMatches];
      order := Rotate(order);
      roundNum := roundNum + 1;
    }
  }
}
