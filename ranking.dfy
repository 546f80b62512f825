/** The "Top 20 High-Risk Students" view (app.py:93): the rows ordered by score,
    highest first, cut to the first twenty. The library sort used there is not
    stable, so nothing here fixes the order of rows with equal scores. */
module Ranking {

  /** Every entry of `order` is a row of a table with `|key|` rows. */
  predicate InRows(key: seq<real>, order: seq<nat>) {
    forall i :: 0 <= i < |order| ==> order[i] < |key|
  }

  /** Rows listed by non-increasing score. */
  predicate Descending(key: seq<real>, order: seq<nat>)
    requires InRows(key, order)
  {
    forall i, j :: 0 <= i < j < |order| ==> key[order[i]] >= key[order[j]]
  }

  predicate Distinct(order: seq<nat>) {
    forall i, j :: 0 <= i < j < |order| ==> order[i] != order[j]
  }

  /** The specification of the view: `min(limit, n)` distinct rows, highest
      score first, and no row left out scores above a row shown. */
  predicate IsTopView(key: seq<real>, limit: nat, view: seq<nat>) {
    && |view| == (if limit < |key| then limit else |key|)
    && InRows(key, view)
    && Distinct(view)
    && Descending(key, view)
    && forall a, j :: 0 <= a < |view| && 0 <= j < |key| && j !in view ==> key[view[a]] >= key[j]
  }

  /** The row positions 0, 1, ..., n - 1 of the full table, in table order. */
  function AllRows(n: nat): (r: seq<nat>)
    ensures |r| == n && Distinct(r)
    ensures forall j: nat :: j in r <==> j < n
  {
    var r := seq(n, i requires 0 <= i < n => i);
    forall j: nat
      ensures j in r <==> j < n
    {
      if j < n {
        assert r[j] == j;
      }
    }
    r
  }

  /** Put row `x` into the list `order` in front of the first row it does not
      score below. */
  function Insert(key: seq<real>, x: nat, order: seq<nat>): (r: seq<nat>)
    requires x < |key| && InRows(key, order)
    ensures |r| == |order| + 1 && InRows(key, r)
    ensures multiset(r) == multiset(order) + multiset{x}
  {
    if order == [] then [x]
    else if key[x] >= key[order[0]] then [x] + order
    else
      assert order == [order[0]] + order[1..];
      [order[0]] + Insert(key, x, order[1..])
  }

  /** A row scoring at least as high as every row of a descending list can
      head it. */
  lemma ConsDescending(key: seq<real>, head: nat, rest: seq<nat>)
    requires head < |key| && InRows(key, rest) && Descending(key, rest)
    requires forall k :: 0 <= k < |rest| ==> key[head] >= key[rest[k]]
    ensures InRows(key, [head] + rest) && Descending(key, [head] + rest)
  {
    var r := [head] + rest;
    forall i, j | 0 <= i < j < |r|
      ensures key[r[i]] >= key[r[j]]
    {
      assert r[j] == rest[j - 1];
      if 0 < i {
        assert r[i] == rest[i - 1];
      }
    }
  }

  /** Inserting into a descending list keeps it descending. */
  lemma {:induction false} InsertDescending(key: seq<real>, x: nat, order: seq<nat>)
    requires x < |key| && InRows(key, order) && Descending(key, order)
    ensures Descending(key, Insert(key, x, order))
  {
    if order == [] {
    } else if key[x] >= key[order[0]] {
      ConsDescending(key, x, order);
    } else {
      var tail := order[1..];
      var rest := Insert(key, x, tail);
      InsertDescending(key, x, tail);
      forall k | 0 <= k < |rest|
        ensures key[order[0]] >= key[rest[k]]
      {
        assert rest[k] in multiset(rest);
        assert rest[k] == x || rest[k] in tail;
      }
      ConsDescending(key, order[0], rest);
    }
  }

  /** The rows of `order` rearranged so that scores never increase. */
  function SortDescending(key: seq<real>, order: seq<nat>): (r: seq<nat>)
    requires InRows(key, order)
    ensures |r| == |order| && InRows(key, r)
    ensures multiset(r) == multiset(order)
    ensures Descending(key, r)
  {
    if order == [] then []
    else
      assert order == [order[0]] + order[1..];
      var rest := SortDescending(key, order[1..]);
      InsertDescending(key, order[0], rest);
      Insert(key, order[0], rest)
  }

  /** Each row position occurs once in `AllRows(n)`. */
  lemma {:induction false} AllRowsOnce(n: nat, y: nat)
    ensures multiset(AllRows(n))[y] == if y < n then 1 else 0
  {
    if n > 0 {
      AllRowsOnce(n - 1, y);
      assert AllRows(n) == AllRows(n - 1) + [n - 1];
    }
  }

  /** A list in which no entry is counted twice has no repeats. */
  lemma OnceEachIsDistinct(s: seq<nat>)
    requires forall y :: multiset(s)[y] <= 1
    ensures Distinct(s)
  {
    forall i, j | 0 <= i < j < |s|
      ensures s[i] != s[j]
    {
      assert s == s[..j] + s[j..];
      assert multiset(s) == multiset(s[..j]) + multiset(s[j..]);
      assert s[i] in multiset(s[..j]);
      assert s[j] in multiset(s[j..]);
      assert multiset(s)[s[i]] <= 1;
    }
  }

  /** Cutting a descending ordering of every row after `m` entries leaves no
      omitted row scoring above a shown one. */
  lemma {:induction false} PrefixDominates(key: seq<real>, sorted: seq<nat>, m: nat)
    requires InRows(key, sorted) && Descending(key, sorted) && m <= |sorted|
    requires forall j: nat :: j < |key| ==> j in sorted
    ensures forall a, j :: 0 <= a < m && 0 <= j < |key| && j !in sorted[..m] ==> key[sorted[a]] >= key[j]
  {
    forall a, j | 0 <= a < m && 0 <= j < |key| && j !in sorted[..m]
      ensures key[sorted[a]] >= key[j]
    {
      assert j in sorted;
      var k :| 0 <= k < |sorted| && sorted[k] == j;
      assert m <= k;
    }
  }

  /** The first `min(limit, n)` entries of a descending permutation of all `n`
      rows meet the specification of the view. */
  lemma PrefixIsTopView(key: seq<real>, sorted: seq<nat>, limit: nat)
    requires |sorted| == |key| && InRows(key, sorted) && Descending(key, sorted)
    requires multiset(sorted) == multiset(AllRows(|key|))
    ensures IsTopView(key, limit, sorted[..if limit < |key| then limit else |key|])
  {
    var all := AllRows(|key|);
    forall y | true
      ensures multiset(sorted)[y] <= 1
    {
      AllRowsOnce(|key|, y);
    }
    OnceEachIsDistinct(sorted);
    forall j: nat | j < |key|
      ensures j in sorted
    {
      assert j in all;
      assert j in multiset(all);
    }
    var m := if limit < |key| then limit else |key|;
    PrefixDominates(key, sorted, m);
  }

  /** `df.sort_values("risk_score", ascending=False).head(limit)`, as row positions. */
  function TopRows(key: seq<real>, limit: nat): (view: seq<nat>)
    ensures IsTopView(key, limit, view)
  {
    var sorted := SortDescending(key, AllRows(|key|));
    PrefixIsTopView(key, sorted, limit);
    sorted[..if limit < |key| then limit else |key|]
  }
}
