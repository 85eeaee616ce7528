/**
 * The Paginator of render/utils.py: the page count, the next and previous
 * page, and the compressed list of page links shown under a listing, such as
 * [1, 2, ..., 8, 9, 10, 11, 12, ..., 19, 20].
 */
module Pagination {
  import opened Common

  /** One entry of the displayed page list: a page link or the '...' marker. */
  datatype PageItem = Page(n: int) | Ellipsis

  /** The fields the Paginator sets once, when it is built. */
  datatype Paginator = Paginator(
    pageSize: int,
    currentPage: int,
    items: nat,
    pages: nat,
    nextPage: Option<int>,
    previousPage: Option<int>)

  function Max(a: int, b: int): int { if a < b then b else a }

  function Min(a: int, b: int): int { if a < b then a else b }

  /** The least number of pages of `size` items that hold `total` items. */
  function CeilDiv(total: nat, size: int): (q: nat)
    requires size > 0
    ensures q * size >= total
    ensures q == 0 || (q - 1) * size < total
  {
    var q := (total + size - 1) / size;
    assert total + size - 1 == q * size + (total + size - 1) % size;
    q
  }

  lemma MulMonotone(a: int, b: int, size: int)
    requires a <= b && size > 0
    ensures a * size <= b * size
  {
    assert b * size - a * size == (b - a) * size;
  }

  /** The two bounds of CeilDiv determine the page count: it is the ceiling and nothing else. */
  lemma CeilDivUnique(total: nat, size: int, q: nat)
    requires size > 0
    requires q * size >= total
    requires q == 0 || (q - 1) * size < total
    ensures q == CeilDiv(total, size)
  {
    var c := CeilDiv(total, size);
    if q > c {
      MulMonotone(c, q - 1, size);
    } else if q < c {
      MulMonotone(q, c - 1, size);
    }
  }

  /** Paginator(page, size, total); the callers pass a positive size. */
  function NewPaginator(page: int, size: int, total: nat): (p: Paginator)
    requires size > 0
    ensures p.pageSize == size && p.currentPage == page && p.items == total
    ensures p.pages * size >= total && (p.pages == 0 || (p.pages - 1) * size < total)
    ensures p.nextPage.Some? <==> page < p.pages
    ensures p.nextPage.Some? ==> p.nextPage.value == page + 1
    ensures p.previousPage.Some? <==> page > 1
    ensures p.previousPage.Some? ==> p.previousPage.value == page - 1
  {
    var pages := CeilDiv(total, size);
    Paginator(size, page, total, pages,
              if page < pages then Some(page + 1) else None,
              if page > 1 then Some(page - 1) else None)
  }

  /** Python's list(range(a, b)) of page links. */
  function Range(a: int, b: int): (r: seq<PageItem>)
    ensures |r| == if a < b then b - a else 0
    ensures forall i :: 0 <= i < |r| ==> r[i] == Page(a + i)
  {
    if a < b then seq(b - a, i requires 0 <= i < b - a => Page(a + i)) else []
  }

  function MaxDisplay(onEachSide: nat, onEnds: nat): nat
  {
    onEachSide * 2 + onEnds * 2 + 1
  }

  /** First page of the window around the current page. */
  function WindowStart(p: Paginator, onEachSide: nat): int
  {
    Max(1, p.currentPage - onEachSide)
  }

  /** Last page of the window around the current page. */
  function WindowEnd(p: Paginator, onEachSide: nat): int
  {
    Min(p.pages, p.currentPage + onEachSide)
  }

  /** The window of pages around the current page. */
  function Middle(p: Paginator, onEachSide: nat): seq<PageItem>
  {
    Range(WindowStart(p, onEachSide), WindowEnd(p, onEachSide) + 1)
  }

  /** The links before the window: the first pages, then '...' if there is a gap. */
  function Beginning(p: Paginator, onEachSide: nat, onEnds: nat): seq<PageItem>
  {
    var start := WindowStart(p, onEachSide);
    if start > onEnds + 1 then Range(1, onEnds + 1) + [Ellipsis] else Range(1, start)
  }

  /** The links after the window: '...' if there is a gap, then the last pages. */
  function Ending(p: Paginator, onEachSide: nat, onEnds: nat): seq<PageItem>
  {
    var end := WindowEnd(p, onEachSide);
    if end < p.pages - onEnds then [Ellipsis] + Range(p.pages - onEnds + 1, p.pages + 1)
    else Range(end + 1, p.pages + 1)
  }

  /** Paginator.pages_range(on_each_side, on_ends). */
  function PagesRange(p: Paginator, onEachSide: nat, onEnds: nat): seq<PageItem>
  {
    if p.pages <= MaxDisplay(onEachSide, onEnds) then
      Range(1, p.pages + 1)
    else
      Beginning(p, onEachSide, onEnds) + Middle(p, onEachSide) + Ending(p, onEachSide, onEnds)
  }

  /**
   * `d` displays the pages lo..hi in order: each page link is the next page,
   * and each '...' stands for at least one hidden page, up to the page of the
   * link after it (or up to hi when it is last).
   */
  predicate Covers(d: seq<PageItem>, lo: int, hi: int)
    decreases |d|
  {
    if d == [] then lo == hi + 1
    else match d[0]
      case Page(n) => n == lo && lo <= hi && Covers(d[1..], lo + 1, hi)
      case Ellipsis =>
        lo <= hi && (|d| == 1 || (d[1].Page? && lo < d[1].n && Covers(d[1..], d[1].n, hi)))
  }

  lemma {:induction false} CoversRangePrefix(a: int, b: int, rest: seq<PageItem>, hi: int)
    requires a <= b
    requires Covers(rest, b, hi)
    ensures Covers(Range(a, b) + rest, a, hi)
    decreases b - a
  {
    if a < b {
      CoversRangePrefix(a + 1, b, rest, hi);
      var d := Range(a, b) + rest;
      assert d[1..] == Range(a + 1, b) + rest;
      CoversUpper(rest, b, hi);
    } else {
      assert Range(a, b) + rest == rest;
    }
  }

  /** Whatever a covering list starts from, its range is not empty-and-inverted. */
  lemma {:induction false} CoversUpper(d: seq<PageItem>, lo: int, hi: int)
    requires Covers(d, lo, hi)
    ensures lo <= hi + 1
  {
  }

  lemma CoversEllipsisPrefix(rest: seq<PageItem>, lo: int, hi: int)
    requires rest != [] && rest[0].Page? && lo < rest[0].n
    requires Covers(rest, rest[0].n, hi)
    ensures Covers([Ellipsis] + rest, lo, hi)
  {
    var d := [Ellipsis] + rest;
    assert d[1..] == rest;
  }

  /** Every page link of a covering list lies within lo..hi. */
  lemma {:induction false} CoversBounds(d: seq<PageItem>, lo: int, hi: int)
    requires Covers(d, lo, hi)
    ensures forall i :: 0 <= i < |d| && d[i].Page? ==> lo <= d[i].n <= hi
    decreases |d|
  {
    if d != [] {
      match d[0]
      case Page(n) =>
        CoversBounds(d[1..], lo + 1, hi);
        assert forall i :: 1 <= i < |d| ==> d[i] == d[1..][i - 1];
      case Ellipsis =>
        if |d| > 1 {
          CoversBounds(d[1..], d[1].n, hi);
          assert forall i :: 1 <= i < |d| ==> d[i] == d[1..][i - 1];
        }
    }
  }

  /** The page links of a covering list strictly increase. */
  lemma {:induction false} CoversIncreasing(d: seq<PageItem>, lo: int, hi: int)
    requires Covers(d, lo, hi)
    ensures forall i, j :: 0 <= i < j < |d| && d[i].Page? && d[j].Page? ==> d[i].n < d[j].n
    decreases |d|
  {
    if d != [] {
      var lo' := if d[0].Page? then lo + 1 else if |d| > 1 then d[1].n else lo;
      if |d| > 1 {
        CoversIncreasing(d[1..], lo', hi);
        CoversBounds(d[1..], lo', hi);
        forall i, j | 0 <= i < j < |d| && d[i].Page? && d[j].Page?
          ensures d[i].n < d[j].n
        {
          assert d[j] == d[1..][j - 1];
          if i > 0 {
            assert d[i] == d[1..][i - 1];
          }
        }
      }
    }
  }

  /**
   * Neighbouring links with no '...' between them are consecutive pages, and a
   * '...' between two links hides at least one page.
   */
  lemma {:induction false} CoversGaps(d: seq<PageItem>, lo: int, hi: int)
    requires Covers(d, lo, hi)
    ensures forall i :: 0 <= i < |d| - 1 && d[i].Page? && d[i + 1].Page? ==> d[i + 1].n == d[i].n + 1
    ensures forall i :: 0 < i < |d| - 1 && d[i] == Ellipsis ==>
      d[i - 1].Page? && d[i + 1].Page? && d[i + 1].n >= d[i - 1].n + 2
    decreases |d|
  {
    if d != [] {
      var lo' := if d[0].Page? then lo + 1 else if |d| > 1 then d[1].n else lo;
      if |d| > 1 {
        CoversGaps(d[1..], lo', hi);
        if d[0].Page? && d[1] == Ellipsis && |d| > 2 {
          assert d[1..][1] == d[2];
        }
        forall i | 0 < i < |d| - 1
          ensures d[i] == d[1..][i - 1] && d[i + 1] == d[1..][i]
        {
        }
      }
    }
  }

  lemma PageInRange(a: int, b: int, k: int)
    ensures Page(k) in Range(a, b) <==> a <= k < b
  {
    if a <= k < b {
      assert Range(a, b)[k - a] == Page(k);
    }
  }

  lemma EndingCovers(p: Paginator, onEachSide: nat, onEnds: nat)
    requires 1 <= p.currentPage <= p.pages
    ensures Covers(Ending(p, onEachSide, onEnds), WindowEnd(p, onEachSide) + 1, p.pages)
  {
    var pages := p.pages;
    var e := WindowEnd(p, onEachSide);
    var ending := Ending(p, onEachSide, onEnds);
    if e < pages - onEnds {
      var tail := Range(pages - onEnds + 1, pages + 1);
      CoversRangePrefix(pages - onEnds + 1, pages + 1, [], pages);
      assert tail + [] == tail;
      if onEnds == 0 {
        assert ending == [Ellipsis];
      } else {
        CoversEllipsisPrefix(tail, e + 1, pages);
      }
    } else {
      CoversRangePrefix(e + 1, pages + 1, [], pages);
      assert ending + [] == ending;
    }
  }

  lemma MiddleEndingCovers(p: Paginator, onEachSide: nat, onEnds: nat)
    requires 1 <= p.currentPage <= p.pages
    ensures var me := Middle(p, onEachSide) + Ending(p, onEachSide, onEnds);
            && Covers(me, WindowStart(p, onEachSide), p.pages)
            && me[0] == Page(WindowStart(p, onEachSide))
            && Page(p.currentPage) in me
  {
    var s := WindowStart(p, onEachSide);
    var e := WindowEnd(p, onEachSide);
    EndingCovers(p, onEachSide, onEnds);
    CoversRangePrefix(s, e + 1, Ending(p, onEachSide, onEnds), p.pages);
    PageInRange(s, e + 1, p.currentPage);
  }

  lemma LongCovers(p: Paginator, onEachSide: nat, onEnds: nat)
    requires 1 <= p.currentPage <= p.pages
    ensures var r := Beginning(p, onEachSide, onEnds) + Middle(p, onEachSide) + Ending(p, onEachSide, onEnds);
            Covers(r, 1, p.pages) && Page(p.currentPage) in r
  {
    var s := WindowStart(p, onEachSide);
    var b := Beginning(p, onEachSide, onEnds);
    var me := Middle(p, onEachSide) + Ending(p, onEachSide, onEnds);
    MiddleEndingCovers(p, onEachSide, onEnds);
    assert b + Middle(p, onEachSide) + Ending(p, onEachSide, onEnds) == b + me;
    if s > onEnds + 1 {
      var em := [Ellipsis] + me;
      CoversEllipsisPrefix(me, onEnds + 1, p.pages);
      CoversRangePrefix(1, onEnds + 1, em, p.pages);
      assert b + me == Range(1, onEnds + 1) + em;
    } else {
      CoversRangePrefix(1, s, me, p.pages);
    }
  }

  /**
   * For a current page within 1..pages, the displayed list covers every page
   * from 1 to pages, and shows the current page.
   */
  lemma PagesRangeCovers(p: Paginator, onEachSide: nat, onEnds: nat)
    requires 1 <= p.currentPage <= p.pages
    ensures Covers(PagesRange(p, onEachSide, onEnds), 1, p.pages)
    ensures Page(p.currentPage) in PagesRange(p, onEachSide, onEnds)
  {
    if p.pages <= MaxDisplay(onEachSide, onEnds) {
      CoversRangePrefix(1, p.pages + 1, [], p.pages);
      assert Range(1, p.pages + 1) + [] == Range(1, p.pages + 1);
      PageInRange(1, p.pages + 1, p.currentPage);
    } else {
      LongCovers(p, onEachSide, onEnds);
    }
  }

  /** The pages a long display shows; the others are hidden behind a '...'. */
  predicate Shown(p: Paginator, onEachSide: nat, onEnds: nat, k: int)
  {
    var s := WindowStart(p, onEachSide);
    var e := WindowEnd(p, onEachSide);
    || s <= k <= e
    || (k < s && (s <= onEnds + 1 || k <= onEnds))
    || (k > e && (e >= p.pages - onEnds || k > p.pages - onEnds))
  }

  /**
   * When the pages do not all fit, the display shows the window around the
   * current page; before it, the first onEnds pages followed by '...' when the
   * window starts after page onEnds + 1, and every earlier page otherwise; after
   * it, '...' and the last onEnds pages when the window ends before page
   * pages - onEnds, and every later page otherwise.
   */
  lemma PagesRangeShown(p: Paginator, onEachSide: nat, onEnds: nat, k: int)
    requires 1 <= p.currentPage <= p.pages
    requires p.pages > MaxDisplay(onEachSide, onEnds)
    requires 1 <= k <= p.pages
    ensures Page(k) in PagesRange(p, onEachSide, onEnds) <==> Shown(p, onEachSide, onEnds, k)
  {
    var pages := p.pages;
    var s := WindowStart(p, onEachSide);
    var e := WindowEnd(p, onEachSide);
    var beginning := Beginning(p, onEachSide, onEnds);
    var ending := Ending(p, onEachSide, onEnds);
    assert Page(k) in PagesRange(p, onEachSide, onEnds) <==>
      Page(k) in beginning || Page(k) in Middle(p, onEachSide) || Page(k) in ending;
    PageInRange(s, e + 1, k);
    if s > onEnds + 1 {
      PageInRange(1, onEnds + 1, k);
      assert Page(k) in beginning <==> Page(k) in Range(1, onEnds + 1);
    } else {
      PageInRange(1, s, k);
    }
    if e < pages - onEnds {
      PageInRange(pages - onEnds + 1, pages + 1, k);
      assert Page(k) in ending <==> Page(k) in Range(pages - onEnds + 1, pages + 1);
    } else {
      PageInRange(e + 1, pages + 1, k);
    }
  }

  function CountEllipses(d: seq<PageItem>): nat
  {
    if d == [] then 0 else (if d[0] == Ellipsis then 1 else 0) + CountEllipses(d[1..])
  }

  lemma {:induction false} CountEllipsesAppend(a: seq<PageItem>, b: seq<PageItem>)
    ensures CountEllipses(a + b) == CountEllipses(a) + CountEllipses(b)
    decreases |a|
  {
    if a != [] {
      CountEllipsesAppend(a[1..], b);
      assert (a + b)[1..] == a[1..] + b;
    } else {
      assert a + b == b;
    }
  }

  lemma {:induction false} CountEllipsesRange(a: int, b: int)
    ensures CountEllipses(Range(a, b)) == 0
    decreases if a < b then b - a else 0
  {
    if a < b {
      assert Range(a, b)[1..] == Range(a + 1, b);
      CountEllipsesRange(a + 1, b);
    }
  }

  /**
   * A long display holds a leading '...' exactly when the window starts after
   * page onEnds + 1 (it then sits right after the first onEnds links), and a
   * trailing one exactly when the window ends before page pages - onEnds (it
   * then sits right before the last onEnds links); a short display has none.
   */
  lemma BeginningEllipses(p: Paginator, onEachSide: nat, onEnds: nat)
    ensures var b := Beginning(p, onEachSide, onEnds);
            && CountEllipses(b) == (if WindowStart(p, onEachSide) > onEnds + 1 then 1 else 0)
            && (WindowStart(p, onEachSide) > onEnds + 1 ==> |b| == onEnds + 1 && b[onEnds] == Ellipsis)
  {
    var s := WindowStart(p, onEachSide);
    if s > onEnds + 1 {
      CountEllipsesRange(1, onEnds + 1);
      CountEllipsesAppend(Range(1, onEnds + 1), [Ellipsis]);
      assert CountEllipses([Ellipsis]) == 1;
    } else {
      CountEllipsesRange(1, s);
    }
  }

  lemma EndingEllipses(p: Paginator, onEachSide: nat, onEnds: nat)
    ensures var en := Ending(p, onEachSide, onEnds);
            && CountEllipses(en) == (if WindowEnd(p, onEachSide) < p.pages - onEnds then 1 else 0)
            && (WindowEnd(p, onEachSide) < p.pages - onEnds ==> |en| == onEnds + 1 && en[0] == Ellipsis)
  {
    var e := WindowEnd(p, onEachSide);
    if e < p.pages - onEnds {
      CountEllipsesRange(p.pages - onEnds + 1, p.pages + 1);
      CountEllipsesAppend([Ellipsis], Range(p.pages - onEnds + 1, p.pages + 1));
      assert CountEllipses([Ellipsis]) == 1;
    } else {
      CountEllipsesRange(e + 1, p.pages + 1);
    }
  }

  /**
   * A long display holds a leading '...' exactly when the window starts after
   * page onEnds + 1 (it then sits right after the first onEnds links), and a
   * trailing one exactly when the window ends before page pages - onEnds (it
   * then sits right before the last onEnds links); a short display has none.
   */
  lemma PagesRangeEllipses(p: Paginator, onEachSide: nat, onEnds: nat)
    ensures var r := PagesRange(p, onEachSide, onEnds);
            var s := WindowStart(p, onEachSide);
            var e := WindowEnd(p, onEachSide);
            && (p.pages <= MaxDisplay(onEachSide, onEnds) ==> CountEllipses(r) == 0)
            && (p.pages > MaxDisplay(onEachSide, onEnds) ==>
                  && CountEllipses(r) == (if s > onEnds + 1 then 1 else 0) + (if e < p.pages - onEnds then 1 else 0)
                  && (s > onEnds + 1 ==> r[onEnds] == Ellipsis)
                  && (e < p.pages - onEnds ==> r[|r| - 1 - onEnds] == Ellipsis))
  {
    if p.pages <= MaxDisplay(onEachSide, onEnds) {
      CountEllipsesRange(1, p.pages + 1);
    } else {
      var beginning := Beginning(p, onEachSide, onEnds);
      var middle := Middle(p, onEachSide);
      var ending := Ending(p, onEachSide, onEnds);
      var r := beginning + middle + ending;
      CountEllipsesAppend(beginning + middle, ending);
      CountEllipsesAppend(beginning, middle);
      CountEllipsesRange(WindowStart(p, onEachSide), WindowEnd(p, onEachSide) + 1);
      BeginningEllipses(p, onEachSide, onEnds);
      EndingEllipses(p, onEachSide, onEnds);
      if WindowStart(p, onEachSide) > onEnds + 1 {
        assert r[onEnds] == beginning[onEnds];
      }
      if WindowEnd(p, onEachSide) < p.pages - onEnds {
        assert r[|r| - 1 - onEnds] == ending[0];
      }
    }
  }

  /** The worked example of pages_range: 20 pages, current page 10, defaults 2 and 2. */
  lemma PagesRangeExample()
    ensures NewPaginator(10, 10, 200).pages == 20
    ensures PagesRange(NewPaginator(10, 10, 200), 2, 2) ==
      [Page(1), Page(2), Ellipsis, Page(8), Page(9), Page(10), Page(11), Page(12),
       Ellipsis, Page(19), Page(20)]
  {
    var p := NewPaginator(10, 10, 200);
    CeilDivUnique(200, 10, 20);
    assert Range(1, 3) == [Page(1), Page(2)];
    assert Range(8, 13) == [Page(8), Page(9), Page(10), Page(11), Page(12)];
    assert Range(19, 21) == [Page(19), Page(20)];
  }

  /** Five pages fit the default display, so all of them are listed with no '...'. */
  lemma PagesRangeShortExample()
    ensures PagesRange(NewPaginator(3, 10, 50), 2, 2) ==
      [Page(1), Page(2), Page(3), Page(4), Page(5)]
  {
    CeilDivUnique(50, 10, 5);
    assert Range(1, 6) == [Page(1), Page(2), Page(3), Page(4), Page(5)];
  }
}
