/** "ORDER BY ... LIMIT k" over a finite set and a strict total order. */
module Ranking {
  import opened Orders

  function Ahead<T(!new)>(s: set<T>, lt: (T, T) -> bool, x: T): set<T> {
    set y | y in s && lt(y, x)
  }

  /** The members with fewer than `k` members ahead of them. */
  function First<T(!new)>(s: set<T>, lt: (T, T) -> bool, k: nat): set<T> {
    set x | x in s && |Ahead(s, lt, x)| < k
  }

  lemma SubsetSize<T>(a: set<T>, b: set<T>)
    requires a <= b
    ensures |a| <= |b| && (a != b ==> |a| < |b|)
  {
    assert b == a + (b - a);
    if a != b {
      var x :| x in b - a;
      assert |b - a| > 0;
    }
  }

  lemma {:induction false} GreatestExists<T(!new)>(s: set<T>, lt: (T, T) -> bool) returns (m: T)
    requires StrictTotal(lt) && s != {}
    ensures m in s && forall y :: y in s ==> y == m || lt(y, m)
    decreases |s|
  {
    m :| m in s;
    if s != {m} {
      var rest := s - {m};
      var r := GreatestExists(rest, lt);
      assert forall y :: y in s ==> y == m || y in rest;
      m := if lt(m, r) then r else m;
    }
  }

  lemma {:induction false} FindLeast<T(!new)>(s: set<T>, lt: (T, T) -> bool) returns (m: T)
    requires StrictTotal(lt) && s != {}
    ensures m in s && forall y :: y in s ==> y == m || lt(m, y)
    decreases |s|
  {
    m :| m in s;
    if s != {m} {
      var rest := s - {m};
      var r := FindLeast(rest, lt);
      assert forall y :: y in s ==> y == m || y in rest;
      m := if lt(m, r) then m else r;
    }
  }

  lemma LeastExists<T(!new)>(s: set<T>, lt: (T, T) -> bool)
    requires StrictTotal(lt) && s != {}
    ensures exists m :: m in s && forall y :: y in s ==> y == m || lt(m, y)
  {
    var m := FindLeast(s, lt);
  }

  lemma FirstIsClosed<T(!new)>(s: set<T>, lt: (T, T) -> bool, k: nat, x: T, y: T)
    requires StrictTotal(lt) && x in First(s, lt, k) && y in s && lt(y, x)
    ensures y in First(s, lt, k)
  {
    SubsetSize(Ahead(s, lt, y), Ahead(s, lt, x));
  }

  /** Every chosen member comes before every member left out. */
  lemma FirstComesFirst<T(!new)>(s: set<T>, lt: (T, T) -> bool, k: nat, x: T, y: T)
    requires StrictTotal(lt) && x in First(s, lt, k) && y in s - First(s, lt, k)
    ensures lt(x, y)
  {
    if lt(y, x) { FirstIsClosed(s, lt, k, x, y); }
  }

  lemma {:induction false} FirstSize<T(!new)>(s: set<T>, lt: (T, T) -> bool, k: nat)
    requires StrictTotal(lt)
    ensures |First(s, lt, k)| == if |s| <= k then |s| else k
    ensures |s| <= k ==> First(s, lt, k) == s
    decreases |s|
  {
    forall x | x in s ensures |Ahead(s, lt, x)| < |s| {
      SubsetSize(Ahead(s, lt, x), s - {x});
    }
    if |s| <= k {
      assert First(s, lt, k) == s;
    } else {
      var m := GreatestExists(s, lt);
      var rest := s - {m};
      assert Ahead(s, lt, m) == rest;
      forall x | x in rest ensures Ahead(s, lt, x) == Ahead(rest, lt, x) {}
      assert First(s, lt, k) == First(rest, lt, k);
      FirstSize(rest, lt, k);
    }
  }

  // ---- the ordered listing

  function Least<T(!new)>(s: set<T>, lt: (T, T) -> bool): (m: T)
    requires StrictTotal(lt) && s != {}
    ensures m in s && forall y :: y in s ==> y == m || lt(m, y)
  {
    LeastExists(s, lt);
    var m :| m in s && forall y :: y in s ==> y == m || lt(m, y);
    m
  }

  ghost predicate Ascends<T(!new)>(r: seq<T>, lt: (T, T) -> bool) {
    forall i, j :: 0 <= i < j < |r| ==> lt(r[i], r[j])
  }

  function Ranked<T(!new)>(s: set<T>, lt: (T, T) -> bool): (r: seq<T>)
    requires StrictTotal(lt)
    ensures |r| == |s| && (forall x :: x in r <==> x in s) && Ascends(r, lt)
    decreases |s|
  {
    if s == {} then []
    else
      var m := Least(s, lt);
      [m] + Ranked(s - {m}, lt)
  }

  function Limit<T(!new)>(s: set<T>, lt: (T, T) -> bool, k: nat): (r: seq<T>)
    requires StrictTotal(lt)
    ensures |r| == if |s| <= k then |s| else k
    ensures Ascends(r, lt) && forall x :: x in r ==> x in s
  {
    var all := Ranked(s, lt);
    if |all| <= k then all else all[..k]
  }

  function Members<T>(r: seq<T>): set<T> { set x | x in r }

  lemma {:induction false} DistinctSize<T(!new)>(r: seq<T>, lt: (T, T) -> bool)
    requires StrictTotal(lt) && Ascends(r, lt)
    ensures |Members(r)| == |r|
  {
    if r != [] {
      var before, last := r[..|r| - 1], r[|r| - 1];
      DistinctSize(before, lt);
      assert r == before + [last];
      assert Members(r) == Members(before) + {last};
      assert last !in Members(before);
    }
  }

  /** The position in the listing is the number of members ahead. */
  lemma RankedPosition<T(!new)>(s: set<T>, r: seq<T>, lt: (T, T) -> bool, i: nat)
    requires StrictTotal(lt) && Ascends(r, lt) && (forall x :: x in r <==> x in s) && i < |r|
    ensures |Ahead(s, lt, r[i])| == i
  {
    DistinctSize(r[..i], lt);
    forall x | x in Ahead(s, lt, r[i]) ensures x in r[..i] {
      var j :| 0 <= j < |r| && r[j] == x;
      assert j < i;
    }
    assert Ahead(s, lt, r[i]) == Members(r[..i]);
  }

  /** LIMIT k of the listing selects exactly the members with fewer than k ahead. */
  lemma LimitIsFirst<T(!new)>(s: set<T>, lt: (T, T) -> bool, k: nat, x: T)
    requires StrictTotal(lt)
    ensures x in Limit(s, lt, k) <==> x in First(s, lt, k)
  {
    if x in s {
      var i :| 0 <= i < |s| && Ranked(s, lt)[i] == x;
      RankedPosition(s, Ranked(s, lt), lt, i);
      if i < k && |s| > k { assert Limit(s, lt, k)[i] == x; }
      if x in Limit(s, lt, k) {
        var j :| 0 <= j < |Limit(s, lt, k)| && Limit(s, lt, k)[j] == x;
        RankedPosition(s, Ranked(s, lt), lt, j);
      }
    }
  }
}
