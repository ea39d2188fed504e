/**
  Resumable sweeps: pages of an ordered set of rows, each starting after a cursor, that may stop
  early or be blocked altogether while rows come and go between pages.
 */
module PagedSweep {
  import opened Common
  import opened Orders
  import opened Ranking

  /** One call: the rows it could see, where it started, what it scanned, and the cursor it returned. */
  datatype Page<T> = Page(visible: set<T>, cursor: Option<T>, next: Option<T>, scanned: seq<T>, blocked: bool)

  ghost function Beyond<T(!new)>(visible: set<T>, cursor: Option<T>, lt: (T, T) -> bool): set<T> {
    set k | k in visible && (cursor.None? || lt(cursor.value, k))
  }

  /** A blocked call keeps its cursor; any other scans a leading part of what lies beyond it. */
  ghost predicate PageStep<T(!new)>(p: Page<T>, lt: (T, T) -> bool)
    requires StrictTotal(lt)
  {
    if p.blocked then p.next == p.cursor && p.scanned == []
    else
      var rows := Ranked(Beyond(p.visible, p.cursor, lt), lt);
      && p.scanned <= rows && (rows != [] ==> p.scanned != [])
      && p.next == if p.scanned == [] then None else Some(p.scanned[|p.scanned| - 1])
  }

  /** Pages chained by their cursors, from none to none. */
  ghost predicate Chained<T(!new)>(pages: seq<Page<T>>, lt: (T, T) -> bool)
    requires StrictTotal(lt)
  {
    && pages != [] && pages[0].cursor.None?
    && (forall i :: 0 <= i < |pages| ==> PageStep(pages[i], lt))
    && (forall i :: 0 <= i < |pages| - 1 ==> pages[i].next.Some? && pages[i + 1].cursor == pages[i].next)
  }

  ghost predicate Sweep<T(!new)>(pages: seq<Page<T>>, lt: (T, T) -> bool)
    requires StrictTotal(lt)
  {
    Chained(pages, lt) && pages[|pages| - 1].next.None?
  }

  ghost function Scanned<T>(pages: seq<Page<T>>): seq<T> {
    if pages == [] then [] else Scanned(pages[..|pages| - 1]) + pages[|pages| - 1].scanned
  }

  ghost predicate AtMost<T>(lt: (T, T) -> bool, a: T, b: T) { a == b || lt(a, b) }

  /** Everything scanned so far ascends up to the cursor, and misses no row that was there throughout. */
  ghost predicate SweptTo<T(!new)>(done: seq<T>, cursor: T, always: set<T>, lt: (T, T) -> bool) {
    && Ascends(done, lt) && done != [] && done[|done| - 1] == cursor
    && forall k :: k in always && AtMost(lt, k, cursor) ==> k in done
  }

  lemma NextPage<T(!new)>(done: seq<T>, p: Page<T>, always: set<T>, lt: (T, T) -> bool)
    requires StrictTotal(lt) && PageStep(p, lt) && always <= p.visible
    requires if p.cursor.None? then done == [] && !p.blocked else SweptTo(done, p.cursor.value, always, lt)
    ensures p.next.Some? ==> SweptTo(done + p.scanned, p.next.value, always, lt)
    ensures p.next.None? ==> Ascends(done + p.scanned, lt) && forall k :: k in always ==> k in done + p.scanned
  {
    if !p.blocked {
      var rows := Ranked(Beyond(p.visible, p.cursor, lt), lt);
      forall k | k in always && k in rows && p.next.Some? && AtMost(lt, k, p.next.value) ensures k in p.scanned {
        var i :| 0 <= i < |rows| && rows[i] == k;
        assert rows[|p.scanned| - 1] == p.next.value;
        assert p.scanned[i] == k;
      }
      forall k | k in always ensures k in done || k in rows {
        assert k in Beyond(p.visible, p.cursor, lt) || (p.cursor.Some? && AtMost(lt, k, p.cursor.value));
      }
      PageAppends(done, p, lt);
    } else {
      assert done + p.scanned == done;
    }
  }

  lemma PageAppends<T(!new)>(done: seq<T>, p: Page<T>, lt: (T, T) -> bool)
    requires StrictTotal(lt) && PageStep(p, lt) && Ascends(done, lt)
    requires if p.cursor.None? then done == [] else done != [] && done[|done| - 1] == p.cursor.value
    ensures Ascends(done + p.scanned, lt)
  {
    if !p.blocked {
      var rows := Ranked(Beyond(p.visible, p.cursor, lt), lt);
      forall i, j | 0 <= i < |done| && 0 <= j < |p.scanned| ensures lt(done[i], p.scanned[j]) {
        assert p.scanned[j] == rows[j] && rows[j] in rows;
        assert lt(done[|done| - 1], rows[j]);
      }
    }
  }

  lemma {:induction false} SweepPrefix<T(!new)>(pages: seq<Page<T>>, n: nat, always: set<T>, lt: (T, T) -> bool)
    requires StrictTotal(lt) && Chained(pages, lt) && 1 <= n <= |pages| && !pages[0].blocked
    requires forall i :: 0 <= i < |pages| ==> always <= pages[i].visible
    ensures pages[n - 1].next.Some? ==> SweptTo(Scanned(pages[..n]), pages[n - 1].next.value, always, lt)
    ensures pages[n - 1].next.None? ==>
      Ascends(Scanned(pages[..n]), lt) && forall k :: k in always ==> k in Scanned(pages[..n])
    decreases n
  {
    assert pages[..n][..n - 1] == pages[..n - 1] && pages[..n][n - 1] == pages[n - 1];
    if n > 1 {
      SweepPrefix(pages, n - 1, always, lt);
    }
    NextPage(Scanned(pages[..n - 1]), pages[n - 1], always, lt);
  }

  lemma BlockedSweepIsEmpty<T(!new)>(pages: seq<Page<T>>, lt: (T, T) -> bool)
    requires StrictTotal(lt) && Sweep(pages, lt) && pages[0].blocked
    ensures |pages| == 1 && Scanned(pages) == []
  {
    var first := pages[0];
    assert PageStep(first, lt) && first.next.None?;
    assert Scanned(pages[..0]) == [];
    assert |pages| == 1;
    assert pages[..|pages| - 1] == [];
  }

  /**
    A finished sweep whose first call was not blocked scans every row that was visible throughout,
    in strictly ascending order and therefore exactly once. A sweep whose first call is blocked
    already ends there: an empty cursor handed back looks the same as a sweep that has finished.
   */
  lemma SweepIsComplete<T(!new)>(pages: seq<Page<T>>, always: set<T>, lt: (T, T) -> bool)
    requires StrictTotal(lt) && Sweep(pages, lt)
    requires forall i :: 0 <= i < |pages| ==> always <= pages[i].visible
    ensures Ascends(Scanned(pages), lt)
    ensures (forall k :: k in always ==> k in Scanned(pages)) <==> !pages[0].blocked || always == {}
  {
    if pages[0].blocked {
      BlockedSweepIsEmpty(pages, lt);
    } else {
      SweepPrefix(pages, |pages|, always, lt);
      assert pages[..|pages|] == pages;
    }
  }

  lemma AscendingIsOnce<T(!new)>(r: seq<T>, lt: (T, T) -> bool)
    requires StrictTotal(lt) && Ascends(r, lt)
    ensures forall i, j :: 0 <= i < j < |r| ==> r[i] != r[j]
  {}

  /** A LIMIT query over the rows beyond the cursor reads a leading part of them. */
  lemma PageIsPrefix<T(!new)>(rows: set<T>, lt: (T, T) -> bool, size: nat)
    requires StrictTotal(lt) && size > 0
    ensures var page := Limit(rows, lt, size);
      && page <= Ranked(rows, lt) && (page == [] <==> Ranked(rows, lt) == [])
      && (forall k :: k in page ==> k in rows) && (forall i, j :: 0 <= i < j < |page| ==> page[i] != page[j])
  {
    AscendingIsOnce(Limit(rows, lt, size), lt);
  }

  ghost function NextOf<T>(scanned: seq<T>): Option<T> {
    if scanned == [] then None else Some(scanned[|scanned| - 1])
  }

  /** Scanning part of such a page, but at least one row if there is any, is a step of the sweep. */
  lemma PrefixIsStep<T(!new)>(visible: set<T>, cursor: Option<T>, lt: (T, T) -> bool, page: seq<T>, scanned: seq<T>)
    requires StrictTotal(lt) && page <= Ranked(Beyond(visible, cursor, lt), lt) && scanned <= page
    requires page == [] <==> Ranked(Beyond(visible, cursor, lt), lt) == []
    requires page != [] ==> scanned != []
    ensures PageStep(Page(visible, cursor, NextOf(scanned), scanned, false), lt)
  {}
}
