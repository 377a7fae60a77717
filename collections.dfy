/**
  Sequence helpers for the in-memory tables: a query-set `filter` and the
  "every two rows differ" shape that the uniqueness constraints take.
*/
module Collections {

  /** The rows of `s` that `keep` accepts, in their original order. */
  function Filter<T(!new)>(s: seq<T>, keep: T -> bool): (r: seq<T>)
    ensures |r| <= |s|
    ensures forall x :: x in r <==> x in s && keep(x)
    ensures multiset(r) <= multiset(s)
  {
    if |s| == 0 then []
    else
      assert s == [s[0]] + s[1..];
      (if keep(s[0]) then [s[0]] else []) + Filter(s[1..], keep)
  }

  /** Filtering a sequence with one more row at the end filters the rest, then that row. */
  lemma {:induction false} FilterAppend<T(!new)>(s: seq<T>, x: T, keep: T -> bool)
    ensures Filter(s + [x], keep) == Filter(s, keep) + (if keep(x) then [x] else [])
  {
    if |s| == 0 {
      assert [] + [x] == [x];
      assert [x][1..] == [];
    } else {
      assert (s + [x])[0] == s[0];
      assert (s + [x])[1..] == s[1..] + [x];
      FilterAppend(s[1..], x, keep);
    }
  }

  /** Every two rows at different positions satisfy `apart`. */
  ghost predicate Pairwise<T>(s: seq<T>, apart: (T, T) -> bool) {
    forall i, j :: 0 <= i < |s| && 0 <= j < |s| && i != j ==> apart(s[i], s[j])
  }

  lemma {:induction false} FilterKeepsPairwise<T(!new)>(s: seq<T>, keep: T -> bool, apart: (T, T) -> bool)
    requires Pairwise(s, apart)
    ensures Pairwise(Filter(s, keep), apart)
  {
    if |s| > 0 {
      FilterKeepsPairwise(s[1..], keep, apart);
      var tail := Filter(s[1..], keep);
      var r := Filter(s, keep);
      if keep(s[0]) {
        assert r == [s[0]] + tail;
        forall i, j | 0 <= i < |r| && 0 <= j < |r| && i != j
          ensures apart(r[i], r[j])
        {
          if i == 0 {
            assert r[j] in s[1..];
            var k :| 0 <= k < |s[1..]| && s[1..][k] == r[j];
            assert s[k + 1] == r[j];
          } else if j == 0 {
            assert r[i] in s[1..];
            var k :| 0 <= k < |s[1..]| && s[1..][k] == r[i];
            assert s[k + 1] == r[i];
          } else {
            assert r[i] == tail[i - 1] && r[j] == tail[j - 1];
          }
        }
      }
    }
  }

  lemma AppendKeepsPairwise<T>(s: seq<T>, x: T, apart: (T, T) -> bool)
    requires Pairwise(s, apart)
    requires forall y :: y in s ==> apart(x, y) && apart(y, x)
    ensures Pairwise(s + [x], apart)
  {
    var r := s + [x];
    forall i, j | 0 <= i < |r| && 0 <= j < |r| && i != j
      ensures apart(r[i], r[j])
    {
      if i < |s| && j < |s| {
        assert r[i] == s[i] && r[j] == s[j];
      } else if i < |s| {
        assert r[i] in s;
      } else {
        assert r[j] in s;
      }
    }
  }
}
