/**
 * What the circle method of `generate_division_schedule` guarantees for a
 * division of distinct teams none of which is called "BYE": every round
 * has n/2 matches (rounded down), no team plays twice in a round, no
 * match holds the placeholder, and every unordered pair of distinct teams
 * is scheduled exactly once, so there are n(n-1)/2 matches in all.
 *
 * The proof follows the seats. With m = |p| seats (m even) and m-1 seats
 * turning around the fixed seat 0, `Seat` says who sits at seat k in
 * round r and `SeatOf` where a team sits; two teams meet in round r
 * exactly when their seats add up to m-1, and since m-1 is odd (2 has an
 * inverse modulo m-1) that happens in exactly one round, `MeetingRound`.
 */
module RoundRobin {
  import opened Seqs
  import opened Scheduler

  /** The initial index of the team at seat `k` of round `r`, for `m` seats. */
  function Seat(m: nat, r: nat, k: nat): (u: nat)
    requires 2 <= m && r < m - 1 && k < m
    ensures u < m && (u == 0 <==> k == 0)
  {
    if k == 0 then 0 else if k - 1 >= r then k - r else k - r + m - 1
  }

  /** The seat in round `r` of the team with initial index `u`. */
  function SeatOf(m: nat, r: nat, u: nat): (k: nat)
    requires 2 <= m && r < m - 1 && u < m
    ensures k < m && Seat(m, r, k) == u
  {
    if u == 0 then 0 else if u + r <= m - 1 then u + r else u + r - (m - 1)
  }

  lemma SeatInjective(m: nat, r: nat, k1: nat, k2: nat)
    requires 2 <= m && r < m - 1 && k1 < m && k2 < m
    requires Seat(m, r, k1) == Seat(m, r, k2)
    ensures k1 == k2
  {
  }

  /** The seating of round `r` is the initial seating permuted by `Seat`. */
  lemma {:induction false} RotatedSeat(p: seq<Team>, r: nat, k: nat)
    requires |p| >= 2 && r < |p| - 1 && k < |p|
    ensures Rotated(p, r)[k] == p[Seat(|p|, r, k)]
  {
    var m := |p|;
    if r == 0 {
      assert Rotated(p, r) == p;
      assert Seat(m, r, k) == k;
    } else {
      var t := Rotated(p, r - 1);
      assert Rotated(p, r) == [t[0]] + [t[m - 1]] + t[1..m - 1];
      if k == 0 {
        assert Rotated(p, r)[k] == p[0];
      } else if k == 1 {
        RotatedSeat(p, r - 1, m - 1);
        assert Seat(m, r - 1, m - 1) == Seat(m, r, 1);
        assert Rotated(p, r)[1] == t[m - 1];
      } else {
        RotatedSeat(p, r - 1, k - 1);
        assert Seat(m, r - 1, k - 1) == Seat(m, r, k);
        assert Rotated(p, r)[k] == t[1..m - 1][k - 2] == t[k - 1];
      }
    }
  }

  lemma RotatedDistinct(p: seq<Team>, r: nat)
    requires |p| >= 2 && r < |p| - 1 && Distinct(p)
    ensures Distinct(Rotated(p, r))
  {
    var t := Rotated(p, r);
    forall i, j | 0 <= i < j < |t|
      ensures t[i] != t[j]
    {
      RotatedSeat(p, r, i);
      RotatedSeat(p, r, j);
      if Seat(|p|, r, i) == Seat(|p|, r, j) {
        SeatInjective(|p|, r, i, j);
      }
    }
  }

  /** The round in which the teams with initial indices `u` and `v` sit opposite each other. */
  ghost function MeetingRound(m: nat, u: nat, v: nat): (r: nat)
    requires 2 <= m && m % 2 == 0 && u < m && v < m && u != v
    ensures r < m - 1 && SeatOf(m, r, u) + SeatOf(m, r, v) == m - 1
  {
    MeetingRoundExists(m, u, v);
    var r: nat :| r < m - 1 && SeatOf(m, r, u) + SeatOf(m, r, v) == m - 1;
    r
  }

  /**
   * Solving SeatOf(u) + SeatOf(v) == m-1 for the round: two seats turn in
   * opposite directions, so their sum moves by two each round, and since
   * m-1 is odd every residue is reached.
   */
  lemma MeetingRoundExists(m: nat, u: nat, v: nat)
    requires 2 <= m && m % 2 == 0 && u < m && v < m && u != v
    ensures exists r: nat :: r < m - 1 && SeatOf(m, r, u) + SeatOf(m, r, v) == m - 1
  {
    var q := Halve(m);
    var h := Halve(u + v);
    if u == 0 || v == 0 {
      var r := m - 1 - u - v;
      assert SeatOf(m, r, u) + SeatOf(m, r, v) == m - 1;
    } else if u + v == 2 * h {
      var r := 2 * q - 1 - h;
      assert SeatOf(m, r, u) + SeatOf(m, r, v) == m - 1;
    } else if u + v <= m - 1 {
      var r := q - 1 - h;
      assert SeatOf(m, r, u) + SeatOf(m, r, v) == m - 1;
    } else {
      var r := 3 * q - 2 - h;
      assert SeatOf(m, r, u) + SeatOf(m, r, v) == m - 1;
    }
  }

  /** `x` is twice its half, plus one when it is odd. */
  lemma Halve(x: nat) returns (h: nat)
    ensures x == 2 * h + x % 2
  {
    h := x / 2;
  }

  /** Because m-1 is odd, two teams sit opposite each other in one round only. */
  lemma MeetingRoundUnique(m: nat, u: nat, v: nat, r: nat)
    requires 2 <= m && m % 2 == 0 && u < m && v < m && u != v && r < m - 1
    requires SeatOf(m, r, u) + SeatOf(m, r, v) == m - 1
    ensures r == MeetingRound(m, u, v)
  {
    OppositeOnce(m, u, v, r, MeetingRound(m, u, v));
  }

  lemma OppositeOnce(m: nat, u: nat, v: nat, r1: nat, r2: nat)
    requires 2 <= m && m % 2 == 0 && u < m && v < m && u != v && r1 < m - 1 && r2 < m - 1
    requires SeatOf(m, r1, u) + SeatOf(m, r1, v) == m - 1
    requires SeatOf(m, r2, u) + SeatOf(m, r2, v) == m - 1
    ensures r1 == r2
  {
  }

  /** How often the unordered pair {a, b} is scheduled in one round. */
  function Occurrences(rd: Round, a: Team, b: Team): nat
  {
    if rd == [] then 0
    else Occurrences(rd[..|rd| - 1], a, b) + (if rd[|rd| - 1] == (a, b) || rd[|rd| - 1] == (b, a) then 1 else 0)
  }

  /** How often the unordered pair {a, b} is scheduled over a whole schedule. */
  function TotalOccurrences(s: seq<Round>, a: Team, b: Team): nat
  {
    if s == [] then 0 else TotalOccurrences(s[..|s| - 1], a, b) + Occurrences(s[|s| - 1], a, b)
  }

  /** The teams of a round, side by side, in match order. */
  function Sides(rd: Round): seq<Team>
  {
    if rd == [] then [] else Sides(rd[..|rd| - 1]) + [rd[|rd| - 1].0, rd[|rd| - 1].1]
  }

  lemma OccurrencesAppend(rd: Round, extra: Round, a: Team, b: Team)
    requires |extra| <= 1
    ensures Occurrences(rd + extra, a, b) == Occurrences(rd, a, b) + Occurrences(extra, a, b)
  {
    if extra == [] {
      assert rd + extra == rd;
    } else {
      assert (rd + extra)[..|rd|] == rd;
      assert extra[..0] == [];
    }
  }

  /** Seat i adds one occurrence of {a, b} exactly when it seats a against b. */
  lemma OccurrencesStep(t: seq<Team>, i: nat, a: Team, b: Team)
    requires |t| % 2 == 0 && 0 < i <= |t| / 2
    ensures Occurrences(Pairs(t, i), a, b) == Occurrences(Pairs(t, i - 1), a, b) +
      if t[i - 1] != Bye && t[|t| - i] != Bye && ((t[i - 1] == a && t[|t| - i] == b) || (t[i - 1] == b && t[|t| - i] == a)) then 1 else 0
  {
    var extra: Round := if t[i - 1] != Bye && t[|t| - i] != Bye then [(t[i - 1], t[|t| - i])] else [];
    assert Pairs(t, i) == Pairs(t, i - 1) + extra;
    OccurrencesAppend(Pairs(t, i - 1), extra, a, b);
  }

  /** In a seating without repetitions, the teams at two seats are the teams at two others only if the seats are. */
  lemma SameSeats(t: seq<Team>, k1: nat, k2: nat, ka: nat, kb: nat)
    requires Distinct(t) && k1 < |t| && k2 < |t| && ka < |t| && kb < |t|
    ensures ((t[k1] == t[ka] && t[k2] == t[kb]) || (t[k1] == t[kb] && t[k2] == t[ka])) <==>
      ((k1 == ka && k2 == kb) || (k1 == kb && k2 == ka))
  {
    if t[k1] == t[ka] {
      assert k1 == ka;
    }
    if t[k1] == t[kb] {
      assert k1 == kb;
    }
    if t[k2] == t[ka] {
      assert k2 == ka;
    }
    if t[k2] == t[kb] {
      assert k2 == kb;
    }
  }

  /** Two real teams at seats `ka` and `kb` meet in the first `i` seats iff they sit opposite each other there. */
  lemma {:induction false} PairsOccurrences(t: seq<Team>, i: nat, ka: nat, kb: nat)
    requires |t| % 2 == 0 && i <= |t| / 2 && Distinct(t)
    requires ka < |t| && kb < |t| && ka != kb && t[ka] != Bye && t[kb] != Bye
    ensures Occurrences(Pairs(t, i), t[ka], t[kb]) == if ka + kb == |t| - 1 && (ka < i || kb < i) then 1 else 0
  {
    if i > 0 {
      var a, b := t[ka], t[kb];
      var before := Occurrences(Pairs(t, i - 1), a, b);
      assert before == if ka + kb == |t| - 1 && (ka < i - 1 || kb < i - 1) then 1 else 0 by {
        PairsOccurrences(t, i - 1, ka, kb);
      }
      var hit := (i - 1 == ka && |t| - i == kb) || (i - 1 == kb && |t| - i == ka);
      assert Occurrences(Pairs(t, i), a, b) == before + if hit then 1 else 0 by {
        OccurrencesStep(t, i, a, b);
        SameSeats(t, i - 1, |t| - i, ka, kb);
      }
    }
  }

  /** The teams of the first `i` seat pairs: never the placeholder, always from one of the seats paired so far. */
  lemma {:induction false} PairsSeats(t: seq<Team>, i: nat)
    requires |t| % 2 == 0 && i <= |t| / 2
    ensures forall x :: x in Sides(Pairs(t, i)) ==>
      x != Bye && exists k :: 0 <= k < |t| && (k < i || |t| - i <= k) && t[k] == x
  {
    if i > 0 {
      PairsSeats(t, i - 1);
      var prev := Pairs(t, i - 1);
      var c, d := t[i - 1], t[|t| - i];
      if c != Bye && d != Bye {
        assert Sides(Pairs(t, i)) == Sides(prev) + [c, d] by {
          assert Pairs(t, i) == prev + [(c, d)];
          assert (prev + [(c, d)])[..|prev|] == prev;
        }
      } else {
        assert Pairs(t, i) == prev by {
          assert Pairs(t, i) == prev + [];
        }
      }
    }
  }

  /** Seat i-1 and its opponent seat are two different teams that the first i-1 seats have not used. */
  lemma PairsFresh(t: seq<Team>, i: nat)
    requires |t| % 2 == 0 && 0 < i <= |t| / 2 && Distinct(t)
    ensures t[i - 1] != t[|t| - i]
    ensures t[i - 1] !in Sides(Pairs(t, i - 1)) && t[|t| - i] !in Sides(Pairs(t, i - 1))
  {
    PairsSeats(t, i - 1);
    var sides := Sides(Pairs(t, i - 1));
    forall x | x in sides
      ensures x != t[i - 1] && x != t[|t| - i]
    {
      var k :| 0 <= k < |t| && (k < i - 1 || |t| - i + 1 <= k) && t[k] == x;
      assert k != i - 1 && k != |t| - i;
    }
    assert i - 1 != |t| - i;
  }

  /** In a seating without repetitions no team appears twice among the sides of one round. */
  lemma {:induction false} PairsDistinct(t: seq<Team>, i: nat)
    requires |t| % 2 == 0 && i <= |t| / 2 && Distinct(t)
    ensures Distinct(Sides(Pairs(t, i)))
  {
    if i > 0 {
      PairsDistinct(t, i - 1);
      PairsDistinctStep(t, i);
    }
  }

  /** The seats paired in step `i` bring two teams not yet on any side. */
  lemma PairsDistinctStep(t: seq<Team>, i: nat)
    requires |t| % 2 == 0 && 0 < i <= |t| / 2 && Distinct(t) && Distinct(Sides(Pairs(t, i - 1)))
    ensures Distinct(Sides(Pairs(t, i)))
  {
    var prev := Pairs(t, i - 1);
    var c, d := t[i - 1], t[|t| - i];
    if c != Bye && d != Bye {
      var sides := Sides(prev);
      assert Distinct(sides + [c, d]) by {
        PairsFresh(t, i);
        DistinctAppend2(sides, c, d);
      }
      assert Sides(Pairs(t, i)) == sides + [c, d] by {
        SidesSnoc(prev, (c, d));
        assert Pairs(t, i) == prev + [(c, d)];
      }
    } else {
      assert Pairs(t, i) == prev by {
        assert Pairs(t, i) == prev + [];
      }
    }
  }

  /** The sides of one more match come after the sides of the matches before it. */
  lemma SidesSnoc(rd: Round, m: Match)
    ensures Sides(rd + [m]) == Sides(rd) + [m.0, m.1]
  {
    assert (rd + [m])[..|rd|] == rd;
  }

  /** Round `r` of the first `k` rounds is the round of the `r`-th seating. */
  lemma {:induction false} RoundsAt(p: seq<Team>, k: nat, r: nat)
    requires |p| >= 2 && |p| % 2 == 0 && r < k
    ensures Rounds(p, k)[r] == RoundOf(Rotated(p, r))
  {
    if r < k - 1 {
      RoundsAt(p, k - 1, r);
    }
  }

  /**
   * A schedule whose round r is the round of the r-th seating, for every
   * r < |s|, schedules two real teams once if they meet before round |s|,
   * else never.
   */
  lemma {:induction false} SeatingsOccurrences(p: seq<Team>, s: seq<Round>, u: nat, v: nat, a: Team, b: Team)
    requires |p| >= 2 && |p| % 2 == 0 && Distinct(p) && |s| <= |p| - 1
    requires forall r :: 0 <= r < |s| ==> s[r] == RoundOf(Rotated(p, r))
    requires u < |p| && v < |p| && u != v && p[u] == a && p[v] == b && a != Bye && b != Bye
    ensures TotalOccurrences(s, a, b) == if MeetingRound(|p|, u, v) < |s| then 1 else 0
  {
    if s != [] {
      var k := |s|;
      var init := s[..k - 1];
      assert TotalOccurrences(init, a, b) == if MeetingRound(|p|, u, v) < k - 1 then 1 else 0 by {
        assert forall r :: 0 <= r < |init| ==> init[r] == s[r];
        SeatingsOccurrences(p, init, u, v, a, b);
      }
      assert Occurrences(s[k - 1], a, b) == if MeetingRound(|p|, u, v) == k - 1 then 1 else 0 by {
        RoundOccurrences(p, k - 1, u, v, a, b);
      }
    }
  }

  /** Two real teams are scheduled against each other in round `r` iff it is their meeting round. */
  lemma RoundOccurrences(p: seq<Team>, r: nat, u: nat, v: nat, a: Team, b: Team)
    requires |p| >= 2 && |p| % 2 == 0 && Distinct(p) && r < |p| - 1
    requires u < |p| && v < |p| && u != v && p[u] == a && p[v] == b && a != Bye && b != Bye
    ensures Occurrences(RoundOf(Rotated(p, r)), a, b) == if MeetingRound(|p|, u, v) == r then 1 else 0
  {
    var m, t := |p|, Rotated(p, r);
    var ka, kb := SeatOf(m, r, u), SeatOf(m, r, v);
    assert t[ka] == a && t[kb] == b by {
      RotatedSeat(p, r, ka);
      RotatedSeat(p, r, kb);
    }
    assert Distinct(t) by {
      RotatedDistinct(p, r);
    }
    assert Occurrences(Pairs(t, m / 2), a, b) == if ka + kb == m - 1 then 1 else 0 by {
      PairsOccurrences(t, m / 2, ka, kb);
    }
    assert (ka + kb == m - 1) == (MeetingRound(m, u, v) == r) by {
      if ka + kb == m - 1 {
        MeetingRoundUnique(m, u, v, r);
      }
    }
  }

  /** Padding a division of distinct real teams keeps it distinct; the placeholder sits last. */
  lemma PaddedDistinct(teams: seq<Team>)
    requires Distinct(teams) && Bye !in teams
    ensures Distinct(Padded(teams))
    ensures forall k :: 0 <= k < |Padded(teams)| && Padded(teams)[k] == Bye ==> k == |teams|
  {
  }

  /**
   * Every unordered pair of distinct teams of a division of distinct real
   * teams is scheduled exactly once.
   */
  lemma EveryPairMeetsOnce(teams: seq<Team>, a: Team, b: Team)
    requires Distinct(teams) && Bye !in teams
    requires a in teams && b in teams && a != b
    ensures TotalOccurrences(Schedule(teams), a, b) == 1
  {
    var u :| 0 <= u < |teams| && teams[u] == a;
    var v :| 0 <= v < |teams| && teams[v] == b;
    PaddedDistinct(teams);
    ScheduleMeetsOnce(teams, u, v, a, b);
  }

  lemma ScheduleMeetsOnce(teams: seq<Team>, u: nat, v: nat, a: Team, b: Team)
    requires Distinct(Padded(teams)) && u < |teams| && v < |teams| && u != v
    requires teams[u] == a && teams[v] == b && a != Bye && b != Bye
    ensures TotalOccurrences(Schedule(teams), a, b) == 1
  {
    var p, s := Padded(teams), Schedule(teams);
    assert forall r :: 0 <= r < |s| ==> s[r] == RoundOf(Rotated(p, r)) by {
      forall r | 0 <= r < |s|
        ensures s[r] == RoundOf(Rotated(p, r))
      {
        ScheduleRound(teams, r);
      }
    }
    assert MeetingRound(|p|, u, v) < |s|;
    SeatingsOccurrences(p, s, u, v, a, b);
  }

  lemma {:induction false} SidesHold(rd: Round, mt: Match)
    requires mt in rd
    ensures mt.0 in Sides(rd) && mt.1 in Sides(rd)
  {
    var last := rd[|rd| - 1];
    assert rd == rd[..|rd| - 1] + [last];
    assert Sides(rd) == Sides(rd[..|rd| - 1]) + [last.0, last.1];
    if mt != last {
      SidesHold(rd[..|rd| - 1], mt);
    }
  }

  /** Round `r` of the schedule is the round of the `r`-th seating of the padded division. */
  lemma ScheduleRound(teams: seq<Team>, r: nat)
    requires r < |Schedule(teams)|
    ensures |Padded(teams)| >= 2 && r < |Padded(teams)| - 1
    ensures Schedule(teams)[r] == RoundOf(Rotated(Padded(teams), r))
  {
    var p := Padded(teams);
    var k := |p| - 1;
    assert Rounds(p, k)[r] == RoundOf(Rotated(p, r)) by {
      RoundsAt(p, k, r);
    }
  }

  /** Who sits at seat `k` of round `r`: the placeholder only in its own seat, otherwise a team of the division. */
  lemma SeatedTeam(teams: seq<Team>, r: nat, k: nat)
    requires |Padded(teams)| >= 2 && r < |Padded(teams)| - 1 && k < |Padded(teams)|
    ensures Seat(|Padded(teams)|, r, k) < |teams| ==> Rotated(Padded(teams), r)[k] in teams
    ensures Seat(|Padded(teams)|, r, k) >= |teams| ==> Rotated(Padded(teams), r)[k] == Bye
  {
    var p := Padded(teams);
    RotatedSeat(p, r, k);
    var q := Seat(|p|, r, k);
    if q < |teams| {
      assert p[q] == teams[q];
    }
  }

  /** Every team of every round is a team of the division, never the placeholder. */
  lemma RoundTeams(teams: seq<Team>, r: nat)
    requires r < |Schedule(teams)|
    ensures forall x :: x in Sides(Schedule(teams)[r]) ==> x != Bye && x in teams
  {
    ScheduleRound(teams, r);
    var p := Padded(teams);
    var m, t := |p|, Rotated(p, r);
    PairsSeats(t, m / 2);
    forall x | x in Sides(Schedule(teams)[r])
      ensures x != Bye && x in teams
    {
      assert x in Sides(Pairs(t, m / 2));
      var k :| 0 <= k < m && t[k] == x;
      SeatedTeam(teams, r, k);
    }
  }

  /** No team plays twice in one round of a division of distinct real teams. */
  lemma RoundDistinct(teams: seq<Team>, r: nat)
    requires Distinct(teams) && Bye !in teams && r < |Schedule(teams)|
    ensures Distinct(Sides(Schedule(teams)[r]))
  {
    ScheduleRound(teams, r);
    var p := Padded(teams);
    assert Distinct(Rotated(p, r)) by {
      PaddedDistinct(teams);
      RotatedDistinct(p, r);
    }
    PairsDistinct(Rotated(p, r), |p| / 2);
  }

  /** Every match of a round pairs two different teams of the division. */
  lemma RoundMatches(teams: seq<Team>, r: nat)
    requires Distinct(teams) && Bye !in teams && r < |Schedule(teams)|
    ensures forall mt :: mt in Schedule(teams)[r] ==> mt.0 in teams && mt.1 in teams && mt.0 != mt.1
  {
    var rd := Schedule(teams)[r];
    RoundTeams(teams, r);
    RoundDistinct(teams, r);
    forall mt | mt in rd
      ensures mt.0 in teams && mt.1 in teams && mt.0 != mt.1
    {
      SidesHold(rd, mt);
      SidesOfMatch(rd, mt);
    }
  }

  lemma {:induction false} SidesOfMatch(rd: Round, mt: Match)
    requires mt in rd && Distinct(Sides(rd))
    ensures mt.0 != mt.1
  {
    var last := rd[|rd| - 1];
    var init := rd[..|rd| - 1];
    assert rd == init + [last];
    var s := Sides(init);
    assert Sides(rd) == s + [last.0, last.1];
    if mt == last {
      assert Sides(rd)[|s|] == last.0 && Sides(rd)[|s| + 1] == last.1;
    } else {
      assert forall i, j :: 0 <= i < j < |s| ==> s[i] == Sides(rd)[i] && s[j] == Sides(rd)[j];
      SidesOfMatch(init, mt);
    }
  }

  lemma {:induction false} PairsLengthNoBye(t: seq<Team>, i: nat)
    requires |t| % 2 == 0 && i <= |t| / 2
    requires forall k :: 0 <= k < |t| ==> t[k] != Bye
    ensures |Pairs(t, i)| == i
  {
    if i > 0 {
      PairsLengthNoBye(t, i - 1);
      assert t[i - 1] != Bye && t[|t| - i] != Bye;
    }
  }

  lemma {:induction false} PairsLengthOneBye(t: seq<Team>, i: nat, kb: nat)
    requires |t| % 2 == 0 && i <= |t| / 2 && kb < |t| && t[kb] == Bye
    requires forall k :: 0 <= k < |t| && k != kb ==> t[k] != Bye
    ensures |Pairs(t, i)| == i - (if kb < i || |t| - 1 - kb < i then 1 else 0)
  {
    if i > 0 {
      PairsLengthOneBye(t, i - 1, kb);
    }
  }

  /** Each round of a division of real teams has n/2 matches, rounded down. */
  lemma RoundSize(teams: seq<Team>, r: nat)
    requires Bye !in teams && r < |Schedule(teams)|
    ensures |Schedule(teams)[r]| == |teams| / 2
  {
    ScheduleRound(teams, r);
    var p := Padded(teams);
    var m, t := |p|, Rotated(p, r);
    if |teams| % 2 == 0 {
      forall k | 0 <= k < m
        ensures t[k] != Bye
      {
        SeatedTeam(teams, r, k);
      }
      PairsLengthNoBye(t, m / 2);
    } else {
      var kb := SeatOf(m, r, m - 1);
      SeatedTeam(teams, r, kb);
      forall k | 0 <= k < m && k != kb
        ensures t[k] != Bye
      {
        SeatedTeam(teams, r, k);
      }
      PairsLengthOneBye(t, m / 2, kb);
    }
  }

  /** A real team at seat `k` plays in the first `i` seat pairs iff its seat is among them and its opponent is real. */
  lemma {:induction false} PairsSeatIn(t: seq<Team>, i: nat, k: nat)
    requires |t| % 2 == 0 && i <= |t| / 2 && Distinct(t) && k < |t| && t[k] != Bye
    ensures t[k] in Sides(Pairs(t, i)) <==> (k < i || |t| - 1 - k < i) && t[|t| - 1 - k] != Bye
  {
    if i > 0 {
      PairsSeatIn(t, i - 1, k);
      PairsSeatInStep(t, i, k);
    }
  }

  /** Seat pair i-1 adds the team at seat `k` exactly when `k` is one of its two seats and both are real. */
  lemma PairsSeatInStep(t: seq<Team>, i: nat, k: nat)
    requires |t| % 2 == 0 && 0 < i <= |t| / 2 && Distinct(t) && k < |t| && t[k] != Bye
    requires t[k] in Sides(Pairs(t, i - 1)) <==> (k < i - 1 || |t| - 1 - k < i - 1) && t[|t| - 1 - k] != Bye
    ensures t[k] in Sides(Pairs(t, i)) <==> (k < i || |t| - 1 - k < i) && t[|t| - 1 - k] != Bye
  {
    var prev := Pairs(t, i - 1);
    var c, d := t[i - 1], t[|t| - i];
    if c != Bye && d != Bye {
      assert Sides(Pairs(t, i)) == Sides(prev) + [c, d] by {
        assert Pairs(t, i) == prev + [(c, d)];
        SidesSnoc(prev, (c, d));
      }
      assert t[k] == c <==> k == i - 1;
      assert t[k] == d <==> k == |t| - i;
    } else {
      assert Pairs(t, i) == prev by {
        assert Pairs(t, i) == prev + [];
      }
    }
  }

  /**
   * In an odd division every team sits out exactly one round: team `u`
   * misses round `r` iff `r` is the round it faces the placeholder's seat.
   */
  lemma ByeRound(teams: seq<Team>, u: nat, r: nat)
    requires Distinct(teams) && Bye !in teams && |teams| % 2 == 1
    requires u < |teams| && r < |Schedule(teams)|
    ensures MeetingRound(|teams| + 1, u, |teams|) < |Schedule(teams)|
    ensures teams[u] !in Sides(Schedule(teams)[r]) <==> r == MeetingRound(|teams| + 1, u, |teams|)
  {
    ScheduleRound(teams, r);
    var p := Padded(teams);
    var m, n, t := |p|, |teams|, Rotated(p, r);
    PaddedDistinct(teams);
    RotatedDistinct(p, r);
    var k, kb := SeatOf(m, r, u), SeatOf(m, r, n);
    assert t[k] == teams[u] by {
      RotatedSeat(p, r, k);
    }
    var j := m - 1 - k;
    assert t[j] == Bye <==> j == kb by {
      RotatedSeat(p, r, j);
      if Seat(m, r, j) == n {
        SeatInjective(m, r, j, kb);
      }
    }
    PairsSeatIn(t, m / 2, k);
    if k + kb == m - 1 {
      MeetingRoundUnique(m, u, n, r);
    }
  }

  lemma {:induction false} MatchCountUniform(s: seq<Round>, len: nat)
    requires forall r :: 0 <= r < |s| ==> |s[r]| == len
    ensures MatchCount(s) == |s| * len
  {
    if s != [] {
      MatchCountUniform(s[..|s| - 1], len);
    }
  }

  /** A division of n real teams plays n(n-1)/2 matches. */
  lemma TotalMatches(teams: seq<Team>)
    requires Bye !in teams
    ensures MatchCount(Schedule(teams)) == |teams| * (|teams| - 1) / 2
  {
    var s := Schedule(teams);
    forall r | 0 <= r < |s|
      ensures |s[r]| == |teams| / 2
    {
      RoundSize(teams, r);
    }
    MatchCountUniform(s, |teams| / 2);
    RoundsTimesHalf(|teams|, |s|);
  }

  /** (n-1) rounds of n/2 matches for n even, n rounds of (n-1)/2 for n odd: n(n-1)/2 either way. */
  lemma RoundsTimesHalf(n: nat, rounds: nat)
    requires rounds == if n == 0 then 0 else if n % 2 == 1 then n else n - 1
    ensures rounds * (n / 2) == n * (n - 1) / 2
  {
    var h := n / 2;
    if n == 0 {
    } else if n % 2 == 0 {
      assert n == 2 * h;
      assert n * (n - 1) == 2 * (h * (n - 1));
    } else {
      assert n == 2 * h + 1;
      assert n * (n - 1) == 2 * (n * h);
    }
  }

  /** Four teams: three rounds of two matches. */
  lemma FourTeams()
    ensures Schedule(["A", "B", "C", "D"]) == [[("A", "D"), ("B", "C")], [("A", "C"), ("D", "B")], [("A", "B"), ("C", "D")]]
  {
    var p := ["A", "B", "C", "D"];
    var t1, t2 := ["A", "D", "B", "C"], ["A", "C", "D", "B"];
    assert Padded(p) == p;
    assert Rotated(p, 1) == t1;
    assert Rotated(p, 2) == t2;
    assert Pairs(p, 1) == [("A", "D")];
    assert RoundOf(p) == [("A", "D"), ("B", "C")];
    assert Pairs(t1, 1) == [("A", "C")];
    assert RoundOf(t1) == [("A", "C"), ("D", "B")];
    assert Pairs(t2, 1) == [("A", "B")];
    assert RoundOf(t2) == [("A", "B"), ("C", "D")];
    assert Rounds(p, 1) == [RoundOf(p)];
    assert Rounds(p, 2) == [RoundOf(p), RoundOf(t1)];
    assert Rounds(p, 3) == [RoundOf(p), RoundOf(t1), RoundOf(t2)];
  }

  /** Three teams: the placeholder gives each team one round off. */
  lemma ThreeTeams()
    ensures Schedule(["A", "B", "C"]) == [[("B", "C")], [("A", "C")], [("A", "B")]]
  {
    var p := ["A", "B", "C", Bye];
    var t1, t2 := ["A", Bye, "B", "C"], ["A", "C", Bye, "B"];
    assert Padded(["A", "B", "C"]) == p;
    assert Rotated(p, 1) == t1;
    assert Rotated(p, 2) == t2;
    assert Pairs(p, 1) == [];
    assert RoundOf(p) == [("B", "C")];
    assert Pairs(t1, 1) == [("A", "C")];
    assert RoundOf(t1) == [("A", "C")];
    assert Pairs(t2, 1) == [("A", "B")];
    assert RoundOf(t2) == [("A", "B")];
    assert Rounds(p, 1) == [RoundOf(p)];
    assert Rounds(p, 2) == [RoundOf(p), RoundOf(t1)];
    assert Rounds(p, 3) == [RoundOf(p), RoundOf(t1), RoundOf(t2)];
  }
}
