/** Facts about sequences shared by the scheduler and the dictionaries. */
module Seqs {

  /** No element occurs twice. */
  ghost predicate Distinct<T>(s: seq<T>)
  {
    forall i, j :: 0 <= i < j < |s| ==> s[i] != s[j]
  }

  /** An element of a sequence without repetitions occurs in it exactly once. */
  lemma {:induction false} DistinctCount<T>(s: seq<T>, x: T)
    requires Distinct(s)
    ensures multiset(s)[x] <= 1
  {
    if s != [] {
      var init := s[..|s| - 1];
      assert s == init + [s[|s| - 1]];
      assert Distinct(init) by {
        forall i, j | 0 <= i < j < |init|
          ensures init[i] != init[j]
        {
          assert init[i] == s[i] && init[j] == s[j];
        }
      }
      DistinctCount(init, x);
      if x == s[|s| - 1] {
        assert x !in init by {
          forall i | 0 <= i < |init|
            ensures init[i] != x
          {
            assert init[i] == s[i];
          }
        }
      }
    }
  }

  /** Having the same elements, as often, as a sequence without repetitions leaves none. */
  lemma DistinctPermutation<T>(s: seq<T>, t: seq<T>)
    requires multiset(s) == multiset(t) && Distinct(t)
    ensures Distinct(s)
  {
    forall i, j | 0 <= i < j < |s|
      ensures s[i] != s[j]
    {
      if s[i] == s[j] {
        assert s == s[..i] + [s[i]] + s[i + 1..j] + [s[j]] + s[j + 1..];
        assert multiset(s)[s[i]] >= 2;
        DistinctCount(t, s[i]);
      }
    }
  }

  /** Two new, different elements keep a sequence without repetitions. */
  lemma DistinctAppend2<T>(s: seq<T>, x: T, y: T)
    requires Distinct(s) && x !in s && y !in s && x != y
    ensures Distinct(s + [x, y])
  {
    var e := s + [x, y];
    forall i, j | 0 <= i < j < |e|
      ensures e[i] != e[j]
    {
      if j >= |s| {
        assert e[i] in s || i == |s|;
      }
    }
  }

  /** A new element keeps a sequence without repetitions. */
  lemma DistinctAppend<T>(s: seq<T>, x: T)
    requires Distinct(s) && x !in s
    ensures Distinct(s + [x])
  {
    var e := s + [x];
    forall i, j | 0 <= i < j < |e|
      ensures e[i] != e[j]
    {
      if j == |s| {
        assert e[i] in s;
      }
    }
  }

  /** A prefix of a prefix is a prefix. */
  lemma PrefixTrans<T>(a: seq<T>, b: seq<T>, c: seq<T>)
    requires |a| <= |b| && b[..|a|] == a && |b| <= |c| && c[..|b|] == b
    ensures c[..|a|] == a
  {
    assert c[..|a|] == c[..|b|][..|a|];
  }
}
