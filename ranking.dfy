/**
 * The ordering of the classification table in update_classification.py:
 * `sort_key` builds one number per sorting criterion (the field's value,
 * 0 for an unknown field, negated when the order is "desc"), and
 * `sorted` orders the table by that tuple, ascending and stably.
 *
 * `sorted` is modelled by insertion: each row, taken in table order, goes
 * in front of the first row already placed whose key is greater. Python's
 * sort is stable, and a stable sort by a total order has only one possible
 * output, so the two agree.
 */
module Ranking {
  import opened Config
  import opened Standings

  /** One row of the table: a team and its line. */
  type Row = (string, Stats)

  /** `team_stats.get(field, 0)`. */
  function FieldValue(s: Stats, field: string): (v: int)
    ensures field == "points" ==> v == s.points
    ensures field == "wins" ==> v == s.wins
    ensures field == "draws" ==> v == s.draws
    ensures field == "losses" ==> v == s.losses
    ensures field == "touchdowns" ==> v == s.touchdowns
    ensures field !in ["points", "wins", "draws", "losses", "touchdowns"] ==> v == 0
  {
    if field == "points" then s.points
    else if field == "wins" then s.wins
    else if field == "draws" then s.draws
    else if field == "losses" then s.losses
    else if field == "touchdowns" then s.touchdowns
    else 0
  }

  /** One component of the key: the field's value, negated for "desc". */
  function Component(s: Stats, c: Criterion): int
  {
    FieldValue(s, c.field) * (if c.order == Desc then -1 else 1)
  }

  /** `sort_key`: one component per criterion, in order. */
  function SortKey(s: Stats, cs: seq<Criterion>): (k: seq<int>)
    ensures |k| == |cs|
    ensures forall i :: 0 <= i < |cs| ==> k[i] == Component(s, cs[i])
  {
    if cs == [] then [] else [Component(s, cs[0])] + SortKey(s, cs[1..])
  }

  /** A descending criterion puts the larger value first; any other order, the smaller. */
  lemma ComponentOrder(s: Stats, t: Stats, c: Criterion)
    ensures c.order == Desc ==> (Component(s, c) < Component(t, c) <==> FieldValue(s, c.field) > FieldValue(t, c.field))
    ensures c.order != Desc ==> (Component(s, c) < Component(t, c) <==> FieldValue(s, c.field) < FieldValue(t, c.field))
  {
  }

  /** Python's `<` on tuples of numbers: the first position where they differ decides; a proper prefix is smaller. */
  predicate LexLess(a: seq<int>, b: seq<int>)
  {
    if a == [] then b != []
    else if b == [] then false
    else a[0] < b[0] || (a[0] == b[0] && LexLess(a[1..], b[1..]))
  }

  lemma {:induction false} LexIrreflexive(a: seq<int>)
    ensures !LexLess(a, a)
  {
    if a != [] {
      LexIrreflexive(a[1..]);
    }
  }

  lemma {:induction false} LexTransitive(a: seq<int>, b: seq<int>, c: seq<int>)
    requires LexLess(a, b) && LexLess(b, c)
    ensures LexLess(a, c)
  {
    if a != [] && b != [] && c != [] && a[0] == b[0] && b[0] == c[0] {
      LexTransitive(a[1..], b[1..], c[1..]);
    }
  }

  /** Two different keys are always ordered one way or the other. */
  lemma {:induction false} LexTotal(a: seq<int>, b: seq<int>)
    ensures a == b || LexLess(a, b) || LexLess(b, a)
  {
    if a != [] && b != [] && a[0] == b[0] {
      LexTotal(a[1..], b[1..]);
      if a[1..] == b[1..] {
        assert a == [a[0]] + a[1..] && b == [b[0]] + b[1..];
      }
    }
  }

  function Key(r: Row, cs: seq<Criterion>): seq<int>
  {
    SortKey(r.1, cs)
  }

  /** Rows in nondecreasing key order: no row has a smaller key than one before it. */
  ghost predicate Ordered(rows: seq<Row>, cs: seq<Criterion>)
  {
    forall i, j :: 0 <= i < j < |rows| ==> !LexLess(Key(rows[j], cs), Key(rows[i], cs))
  }

  /** Places `x` in front of the first row whose key is greater than its own. */
  function Insert(x: Row, rows: seq<Row>, cs: seq<Criterion>): (r: seq<Row>)
    ensures |r| == |rows| + 1
  {
    if rows == [] then [x]
    else if LexLess(Key(x, cs), Key(rows[0], cs)) then [x] + rows
    else [rows[0]] + Insert(x, rows[1..], cs)
  }

  /** `sorted(rows, key=sort_key)`. */
  function Sorted(rows: seq<Row>, cs: seq<Criterion>): (r: seq<Row>)
    ensures |r| == |rows|
  {
    if rows == [] then [] else Insert(rows[|rows| - 1], Sorted(rows[..|rows| - 1], cs), cs)
  }

  /** The rows whose key is `k`, in order. */
  function WithKey(rows: seq<Row>, k: seq<int>, cs: seq<Criterion>): seq<Row>
  {
    if rows == [] then []
    else (if Key(rows[0], cs) == k then [rows[0]] else []) + WithKey(rows[1..], k, cs)
  }

  lemma {:induction false} WithKeyAppend(a: seq<Row>, b: seq<Row>, k: seq<int>, cs: seq<Criterion>)
    ensures WithKey(a + b, k, cs) == WithKey(a, k, cs) + WithKey(b, k, cs)
  {
    if a != [] {
      var h := if Key(a[0], cs) == k then [a[0]] else [];
      assert (a + b)[0] == a[0] && (a + b)[1..] == a[1..] + b;
      assert WithKey(a + b, k, cs) == h + WithKey(a[1..] + b, k, cs);
      assert WithKey(a, k, cs) == h + WithKey(a[1..], k, cs);
      WithKeyAppend(a[1..], b, k, cs);
    } else {
      assert a + b == b;
    }
  }

  lemma {:induction false} InsertPermutes(x: Row, rows: seq<Row>, cs: seq<Criterion>)
    ensures multiset(Insert(x, rows, cs)) == multiset(rows) + multiset{x}
  {
    if rows != [] && !LexLess(Key(x, cs), Key(rows[0], cs)) {
      InsertPermutes(x, rows[1..], cs);
      assert rows == [rows[0]] + rows[1..];
    }
  }

  /** Every row of `rows` and `x` itself have a key at least `k`: so has every row of the insertion. */
  lemma {:induction false} InsertBound(x: Row, rows: seq<Row>, cs: seq<Criterion>, k: seq<int>)
    requires !LexLess(Key(x, cs), k)
    requires forall i :: 0 <= i < |rows| ==> !LexLess(Key(rows[i], cs), k)
    ensures forall i :: 0 <= i < |rows| + 1 ==> !LexLess(Key(Insert(x, rows, cs)[i], cs), k)
  {
    InsertPermutes(x, rows, cs);
    forall i | 0 <= i < |rows| + 1
      ensures !LexLess(Key(Insert(x, rows, cs)[i], cs), k)
    {
      var y := Insert(x, rows, cs)[i];
      assert y in multiset(Insert(x, rows, cs));
      assert y == x || y in rows;
    }
  }

  lemma {:induction false} InsertOrdered(x: Row, rows: seq<Row>, cs: seq<Criterion>)
    requires Ordered(rows, cs)
    ensures Ordered(Insert(x, rows, cs), cs)
  {
    if rows != [] {
      var r := Insert(x, rows, cs);
      if LexLess(Key(x, cs), Key(rows[0], cs)) {
        forall j | 1 <= j < |r|
          ensures !LexLess(Key(r[j], cs), Key(x, cs))
        {
          assert r[j] == rows[j - 1];
          if j > 1 {
            assert !LexLess(Key(rows[j - 1], cs), Key(rows[0], cs));
          } else {
            LexIrreflexive(Key(rows[0], cs));
          }
          if LexLess(Key(r[j], cs), Key(x, cs)) {
            LexTransitive(Key(r[j], cs), Key(x, cs), Key(rows[0], cs));
          }
        }
      } else {
        var rest := rows[1..];
        assert Ordered(rest, cs) by {
          forall i, j | 0 <= i < j < |rest|
            ensures !LexLess(Key(rest[j], cs), Key(rest[i], cs))
          {
            assert rest[i] == rows[i + 1] && rest[j] == rows[j + 1];
          }
        }
        InsertOrdered(x, rest, cs);
        assert forall i :: 0 <= i < |rest| ==> rest[i] == rows[i + 1];
        InsertBound(x, rest, cs, Key(rows[0], cs));
        assert r == [rows[0]] + Insert(x, rest, cs);
      }
    }
  }

  /**
   * With `rows` already ordered, the rows of each key after the insertion
   * are the rows of that key before it, followed by `x` when `x` has that
   * key: `x` lands after all rows with its own key.
   */
  lemma {:induction false} InsertStable(x: Row, rows: seq<Row>, cs: seq<Criterion>, k: seq<int>)
    requires Ordered(rows, cs)
    ensures WithKey(Insert(x, rows, cs), k, cs) == WithKey(rows, k, cs) + if Key(x, cs) == k then [x] else []
  {
    if rows == [] {
      assert Insert(x, rows, cs) == [x];
      assert WithKey([x], k, cs) == (if Key(x, cs) == k then [x] else []) + WithKey([], k, cs);
    } else if LexLess(Key(x, cs), Key(rows[0], cs)) {
      var r := Insert(x, rows, cs);
      assert r == [x] + rows;
      assert r[0] == x && r[1..] == rows;
      assert WithKey(r, k, cs) == (if Key(x, cs) == k then [x] else []) + WithKey(rows, k, cs);
      if Key(x, cs) == k {
        NoneWithSmallerKey(rows, cs, k);
      }
    } else {
      var rest := rows[1..];
      var r := Insert(x, rows, cs);
      assert Ordered(rest, cs) by {
        forall i, j | 0 <= i < j < |rest|
          ensures !LexLess(Key(rest[j], cs), Key(rest[i], cs))
        {
          assert rest[i] == rows[i + 1] && rest[j] == rows[j + 1];
        }
      }
      var h := if Key(rows[0], cs) == k then [rows[0]] else [];
      assert r == [rows[0]] + Insert(x, rest, cs);
      assert r[0] == rows[0] && r[1..] == Insert(x, rest, cs);
      assert WithKey(r, k, cs) == h + WithKey(Insert(x, rest, cs), k, cs);
      assert WithKey(rows, k, cs) == h + WithKey(rest, k, cs);
      InsertStable(x, rest, cs, k);
    }
  }

  /** In ordered rows whose first key is greater than `k`, no row has key `k`. */
  lemma {:induction false} NoneWithSmallerKey(rows: seq<Row>, cs: seq<Criterion>, k: seq<int>)
    requires rows != [] && Ordered(rows, cs) && LexLess(k, Key(rows[0], cs))
    ensures WithKey(rows, k, cs) == []
  {
    var i := 0;
    while i < |rows|
      invariant i <= |rows|
      invariant WithKey(rows, k, cs) == WithKey(rows[i..], k, cs)
    {
      if i > 0 {
        assert !LexLess(Key(rows[i], cs), Key(rows[0], cs));
      } else {
        LexIrreflexive(k);
      }
      assert Key(rows[i], cs) != k;
      assert rows[i..][1..] == rows[i + 1..];
      i := i + 1;
    }
  }

  /** The sorted table holds the same rows, as often as before. */
  lemma {:induction false} SortedPermutes(rows: seq<Row>, cs: seq<Criterion>)
    ensures multiset(Sorted(rows, cs)) == multiset(rows)
  {
    if rows != [] {
      var init := rows[..|rows| - 1];
      SortedPermutes(init, cs);
      InsertPermutes(rows[|rows| - 1], Sorted(init, cs), cs);
      assert rows == init + [rows[|rows| - 1]];
    }
  }

  /** The sorted table is in nondecreasing key order. */
  lemma {:induction false} SortedOrdered(rows: seq<Row>, cs: seq<Criterion>)
    ensures Ordered(Sorted(rows, cs), cs)
  {
    if rows != [] {
      SortedOrdered(rows[..|rows| - 1], cs);
      InsertOrdered(rows[|rows| - 1], Sorted(rows[..|rows| - 1], cs), cs);
    }
  }

  /** Stability: the rows sharing a key keep the order they had in the table. */
  lemma {:induction false} SortedStable(rows: seq<Row>, cs: seq<Criterion>, k: seq<int>)
    ensures WithKey(Sorted(rows, cs), k, cs) == WithKey(rows, k, cs)
  {
    if rows != [] {
      var init, last := rows[..|rows| - 1], rows[|rows| - 1];
      SortedStable(init, cs, k);
      SortedOrdered(init, cs);
      InsertStable(last, Sorted(init, cs), cs, k);
      assert rows == init + [last];
      WithKeyAppend(init, [last], k, cs);
    }
  }
}
