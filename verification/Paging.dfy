/** Queries with ORDER BY and LIMIT over a table that is kept in the order of its cursor column. */
module Paging {

  /** SELECT ... WHERE p ORDER BY seq ASC LIMIT n, over a table in seq order. */
  function Select<T(!new)>(rows: seq<T>, p: T -> bool, n: nat): (r: seq<T>)
    ensures |r| <= n && |r| <= |rows|
  {
    if rows == [] || n == 0 then []
    else if p(rows[0]) then [rows[0]] + Select(rows[1..], p, n - 1)
    else Select(rows[1..], p, n)
  }

  lemma {:induction false} SelectSound<T(!new)>(rows: seq<T>, p: T -> bool, n: nat)
    ensures forall r | r in Select(rows, p, n) :: r in rows && p(r)
  {
    if rows != [] && n > 0 {
      SelectSound(rows[1..], p, n - 1);
      SelectSound(rows[1..], p, n);
    }
  }

  /** The beginning of a page is the page of a smaller limit. */
  lemma {:induction false} CutPage<T(!new)>(rows: seq<T>, p: T -> bool, n: nat, k: nat)
    requires k <= |Select(rows, p, n)|
    ensures Select(rows, p, n)[..k] == Select(rows, p, k)
  {
    if k > 0 {
      if p(rows[0]) {
        CutPage(rows[1..], p, n - 1, k - 1);
      } else {
        CutPage(rows[1..], p, n, k);
      }
    }
  }

  /** The same query without a limit. */
  function Filter<T(!new)>(rows: seq<T>, p: T -> bool): (r: seq<T>) {
    if rows == [] then []
    else if p(rows[0]) then [rows[0]] + Filter(rows[1..], p)
    else Filter(rows[1..], p)
  }

  /** A limit takes the front of what there is. */
  lemma {:induction false} SelectIsFront<T(!new)>(rows: seq<T>, p: T -> bool, n: nat)
    ensures Select(rows, p, n) == Filter(rows, p)[..if n < |Filter(rows, p)| then n else |Filter(rows, p)|]
  {
    if rows != [] && n > 0 {
      SelectIsFront(rows[1..], p, if p(rows[0]) then n - 1 else n);
    }
  }

  lemma {:induction false} FilterSound<T(!new)>(rows: seq<T>, p: T -> bool)
    ensures forall r :: r in Filter(rows, p) <==> r in rows && p(r)
  {
    if rows != [] {
      FilterSound(rows[1..], p);
    }
  }

  lemma {:induction false} FilterConcat<T(!new)>(a: seq<T>, b: seq<T>, p: T -> bool)
    ensures Filter(a + b, p) == Filter(a, p) + Filter(b, p)
  {
    if a == [] {
      assert a + b == b;
    } else {
      assert (a + b)[1..] == a[1..] + b;
      FilterConcat(a[1..], b, p);
    }
  }

  /** Conditions that agree on the rows select the same. */
  lemma {:induction false} FilterSame<T(!new)>(rows: seq<T>, p: T -> bool, q: T -> bool)
    requires forall r | r in rows :: p(r) <==> q(r)
    ensures Filter(rows, p) == Filter(rows, q)
  {
    if rows != [] {
      FilterSame(rows[1..], p, q);
    }
  }

  lemma {:induction false} FilterNothing<T(!new)>(rows: seq<T>, p: T -> bool)
    requires forall r | r in rows :: !p(r)
    ensures Filter(rows, p) == []
  {
    if rows != [] {
      FilterNothing(rows[1..], p);
    }
  }

  /** A page that is not full leaves nothing out. */
  lemma {:induction false} ShortPageIsAll<T(!new)>(rows: seq<T>, p: T -> bool, n: nat, r: T)
    requires |Select(rows, p, n)| < n && r in rows && p(r)
    ensures r in Select(rows, p, n)
  {
    if r != rows[0] {
      ShortPageIsAll(rows[1..], p, if p(rows[0]) then n - 1 else n, r);
    }
  }

  lemma {:induction false} LargerLimit<T(!new)>(rows: seq<T>, p: T -> bool, n: nat, r: T)
    requires n > 0 && r in Select(rows, p, n - 1)
    ensures r in Select(rows, p, n)
  {
    if p(rows[0]) {
      if r != rows[0] {
        LargerLimit(rows[1..], p, n - 1, r);
      }
    } else {
      LargerLimit(rows[1..], p, n, r);
    }
  }

  /** A row on the page of a filter is on the page of any narrower filter it passes. */
  lemma {:induction false} NarrowerKeeps<T(!new)>(rows: seq<T>, narrow: T -> bool, wide: T -> bool, n: nat, r: T)
    requires forall x | x in rows && narrow(x) :: wide(x)
    requires r in Select(rows, wide, n) && narrow(r)
    ensures r in Select(rows, narrow, n)
  {
    var tail := rows[1..];
    if wide(rows[0]) {
      if r != rows[0] {
        NarrowerKeeps(tail, narrow, wide, n - 1, r);
        if !narrow(rows[0]) {
          LargerLimit(tail, narrow, n, r);
        }
      }
    } else {
      NarrowerKeeps(tail, narrow, wide, n, r);
    }
  }

  /** A narrower filter that lets the wide filter's page through has the same page. */
  lemma {:induction false} SamePage<T(!new)>(rows: seq<T>, narrow: T -> bool, wide: T -> bool, n: nat)
    requires forall x | x in rows && narrow(x) :: wide(x)
    requires forall x | x in Select(rows, wide, n) :: narrow(x)
    ensures Select(rows, narrow, n) == Select(rows, wide, n)
  {
    if rows != [] && n > 0 {
      var m := if wide(rows[0]) then n - 1 else n;
      forall x | x in Select(rows[1..], wide, m)
        ensures narrow(x)
      {
        assert x in Select(rows, wide, n);
      }
      SamePage(rows[1..], narrow, wide, m);
      assert wide(rows[0]) ==> rows[0] in Select(rows, wide, n);
    }
  }

  /** What a page leaves out stands behind everything in it. */
  lemma {:induction false} PageComesFirst<T(!new)>(rows: seq<T>, p: T -> bool, n: nat, i: nat, j: nat)
    requires i < |rows| && j < |rows| && p(rows[j]) && rows[j] !in Select(rows, p, n) && rows[i] in Select(rows, p, n)
    requires forall h, k :: 0 <= h < k < |rows| ==> rows[h] != rows[k]
    ensures i < j
  {
    SelectSound(rows, p, n);
    if j == 0 {
    } else if i > 0 {
      PageComesFirst(rows[1..], p, if p(rows[0]) then n - 1 else n, i - 1, j - 1);
    }
  }
}
