/**
 * The two queryset operations the views chain together, over a table held
 * as a sequence of rows: `filter(...)` keeps the rows a condition accepts,
 * in table order, and `order_by('-field')` sorts by a key, largest first.
 */
module Queries {

  /** `queryset.filter(cond)`. */
  function Filter<T(!new)>(rows: seq<T>, keep: T -> bool): (r: seq<T>)
    ensures |r| <= |rows|
    ensures forall x :: x in r <==> x in rows && keep(x)
    ensures forall k :: 0 <= k < |r| ==> keep(r[k])
  {
    if rows == [] then []
    else
      var rest := Filter(rows[1..], keep);
      assert forall x :: x in rows <==> x == rows[0] || x in rows[1..];
      if keep(rows[0]) then [rows[0]] + rest else rest
  }

  /** A filter with a condition that accepts every row returns the table unchanged. */
  lemma {:induction false} FilterAll<T(!new)>(rows: seq<T>, keep: T -> bool)
    requires forall x :: x in rows ==> keep(x)
    ensures Filter(rows, keep) == rows
  {
    if rows != [] {
      assert forall x :: x in rows[1..] ==> x in rows;
      FilterAll(rows[1..], keep);
    }
  }

  /** Two chained filters are one filter by the conjunction of their conditions. */
  lemma {:induction false} FilterFilter<T(!new)>(rows: seq<T>, p: T -> bool, q: T -> bool, pq: T -> bool)
    requires forall x :: pq(x) == (p(x) && q(x))
    ensures Filter(Filter(rows, p), q) == Filter(rows, pq)
  {
    if rows != [] {
      FilterFilter(rows[1..], p, q, pq);
    }
  }

  /** Filtering a table with one more row at the end. */
  lemma {:induction false} FilterSnoc<T(!new)>(rows: seq<T>, x: T, keep: T -> bool)
    ensures Filter(rows + [x], keep) == Filter(rows, keep) + (if keep(x) then [x] else [])
  {
    if rows == [] {
      assert rows + [x] == [x];
    } else {
      assert (rows + [x])[1..] == rows[1..] + [x];
      FilterSnoc(rows[1..], x, keep);
    }
  }

  /** Rows sorted by `key`, largest first (`order_by('-key')`). */
  ghost predicate SortedDesc<T>(rows: seq<T>, key: T -> int) {
    forall i, j :: 0 <= i < j < |rows| ==> key(rows[i]) >= key(rows[j])
  }

  function Insert<T>(x: T, rows: seq<T>, key: T -> int): (r: seq<T>)
    requires SortedDesc(rows, key)
    ensures SortedDesc(r, key)
    ensures multiset(r) == multiset(rows) + multiset{x}
  {
    if rows == [] || key(x) >= key(rows[0]) then
      assert forall j :: 0 <= j < |rows| ==> key(x) >= key(rows[j]) by {
        forall j | 0 <= j < |rows| ensures key(x) >= key(rows[j]) {
          assert key(rows[0]) >= key(rows[j]);
        }
      }
      [x] + rows
    else
      var rest := Insert(x, rows[1..], key);
      InsertBehindHead(x, rows, rest, key);
      [rows[0]] + rest
  }

  lemma InsertBehindHead<T>(x: T, rows: seq<T>, rest: seq<T>, key: T -> int)
    requires rows != [] && SortedDesc(rows, key) && key(x) < key(rows[0])
    requires SortedDesc(rest, key) && multiset(rest) == multiset(rows[1..]) + multiset{x}
    ensures SortedDesc([rows[0]] + rest, key)
    ensures multiset([rows[0]] + rest) == multiset(rows) + multiset{x}
  {
    assert rows == [rows[0]] + rows[1..];
    forall y | y in rest ensures key(rows[0]) >= key(y) {
      assert y in multiset(rest);
      if y != x {
        assert y in multiset(rows[1..]);
        var j :| 0 <= j < |rows[1..]| && rows[1..][j] == y;
        assert rows[j + 1] == y;
      }
    }
    var r := [rows[0]] + rest;
    forall i, j | 0 <= i < j < |r| ensures key(r[i]) >= key(r[j]) {
      if i == 0 {
        assert r[j] == rest[j - 1] && r[j] in rest;
      } else {
        assert r[i] == rest[i - 1] && r[j] == rest[j - 1];
      }
    }
  }

  /** `order_by('-key')`: the same rows, largest key first. */
  function SortDesc<T>(rows: seq<T>, key: T -> int): (r: seq<T>)
    ensures SortedDesc(r, key)
    ensures multiset(r) == multiset(rows)
  {
    if rows == [] then []
    else
      assert rows == [rows[0]] + rows[1..];
      Insert(rows[0], SortDesc(rows[1..], key), key)
  }

  /** Sorting neither adds nor drops rows. */
  lemma SortDescSameRows<T>(rows: seq<T>, key: T -> int)
    ensures |SortDesc(rows, key)| == |rows|
    ensures forall x :: x in SortDesc(rows, key) <==> x in rows
  {
    var r := SortDesc(rows, key);
    assert |r| == |multiset(r)| == |multiset(rows)| == |rows|;
    forall x ensures x in r <==> x in rows {
      assert x in r <==> x in multiset(r);
      assert x in rows <==> x in multiset(rows);
    }
  }

  // ---------------------------------------------------------------------
  // values(column).annotate(count=Count('id')): one count per distinct value

  /** How many times `x` occurs in `s`. */
  function Count<T(==,!new)>(s: seq<T>, x: T): nat {
    if s == [] then 0 else (if s[0] == x then 1 else 0) + Count(s[1..], x)
  }

  /** `s` without any occurrence of `x`. */
  function Remove<T(==,!new)>(s: seq<T>, x: T): (r: seq<T>)
    ensures |r| == |s| - Count(s, x)
    ensures forall y :: y in r <==> y in s && y != x
    ensures forall y :: y != x ==> Count(r, y) == Count(s, y)
  {
    if s == [] then []
    else
      var rest := Remove(s[1..], x);
      assert forall y :: y in s <==> y == s[0] || y in s[1..];
      if s[0] == x then rest else [s[0]] + rest
  }

  /** The distinct values of `s`, in order of first occurrence. */
  function Distinct<T(==,!new)>(s: seq<T>): (d: seq<T>)
    ensures forall x :: x in d <==> x in s
    ensures forall i, j :: 0 <= i < j < |d| ==> d[i] != d[j]
    decreases |s|
  {
    if s == [] then []
    else
      var rest := Distinct(Remove(s[1..], s[0]));
      assert forall y :: y in s <==> y == s[0] || y in s[1..];
      assert forall j :: 0 <= j < |rest| ==> rest[j] in rest && rest[j] != s[0];
      [s[0]] + rest
  }

  /** The groups of `s`: each distinct value with its number of occurrences. */
  function Tally<T(==,!new)>(s: seq<T>): seq<(T, nat)> {
    var d := Distinct(s);
    seq(|d|, i requires 0 <= i < |d| => (d[i], Count(s, d[i])))
  }

  function SumCounts<T(==,!new)>(ds: seq<T>, s: seq<T>): nat {
    if ds == [] then 0 else Count(s, ds[0]) + SumCounts(ds[1..], s)
  }

  function SumSecond<T>(groups: seq<(T, nat)>): nat {
    if groups == [] then 0 else groups[0].1 + SumSecond(groups[1..])
  }

  /** Counting in two sequences that agree on the counts of the given values. */
  lemma {:induction false} SumCountsAgree<T(!new)>(ds: seq<T>, s: seq<T>, t: seq<T>)
    requires forall x :: x in ds ==> Count(s, x) == Count(t, x)
    ensures SumCounts(ds, s) == SumCounts(ds, t)
  {
    if ds != [] {
      SumCountsAgree(ds[1..], s, t);
    }
  }

  /** The counts of all distinct values add up to the length. */
  lemma {:induction false} DistinctCountsCover<T(!new)>(s: seq<T>)
    ensures SumCounts(Distinct(s), s) == |s|
    decreases |s|
  {
    if s != [] {
      var h := s[0];
      var r := Remove(s[1..], h);
      var ds := Distinct(r);
      DistinctCountsCover(r);
      assert Distinct(s) == [h] + ds;
      forall x | x in ds ensures Count(s, x) == Count(r, x) {
        assert x != h;
      }
      SumCountsAgree(ds, s, r);
    }
  }

  lemma {:induction false} TallySum<T(!new)>(ds: seq<T>, s: seq<T>)
    ensures SumSecond(seq(|ds|, i requires 0 <= i < |ds| => (ds[i], Count(s, ds[i])))) == SumCounts(ds, s)
  {
    if ds != [] {
      TallySum(ds[1..], s);
      assert seq(|ds|, i requires 0 <= i < |ds| => (ds[i], Count(s, ds[i])))[1..] ==
             seq(|ds[1..]|, i requires 0 <= i < |ds[1..]| => (ds[1..][i], Count(s, ds[1..][i])));
    }
  }

  /** The tally has one group per distinct value, holding its number of
      occurrences, and the group sizes add up to the length of `s`. */
  lemma TallySpec<T(!new)>(s: seq<T>)
    ensures forall g: (T, nat) :: g in Tally(s) <==> g.0 in s && g.1 == Count(s, g.0)
    ensures forall i, j :: 0 <= i < j < |Tally(s)| ==> Tally(s)[i].0 != Tally(s)[j].0
    ensures SumSecond(Tally(s)) == |s|
  {
    var d := Distinct(s);
    forall g: (T, nat) | g.0 in s && g.1 == Count(s, g.0) ensures g in Tally(s) {
      var i :| 0 <= i < |d| && d[i] == g.0;
      assert Tally(s)[i] == g;
    }
    TallySum(d, s);
    DistinctCountsCover(s);
  }
}
