/** The page arithmetic of the paginator (components/ui/RangeFilter.tsx):
    page count, current page, the page-number strip with ellipses, and the
    conversion of a page number into the 1-based item range it shows. */
module RangeFilter {
  import opened Common

  /** One entry of the page strip: a page button or an ellipsis. */
  datatype PageItem = Page(number: int) | Ellipsis

  /** The 1-based, inclusive item range handed to `onChange`. */
  datatype Range = Range(start: int, end: int)

  /** Up to this many pages the strip lists every page. */
  const MaxPlainPages: int := 7

  function Max(a: int, b: int): int { if a >= b then a else b }
  function Min(a: int, b: int): int { if a <= b then a else b }

  /** `Math.ceil(totalCount / pageSize)`: the fewest pages that hold every item. */
  function TotalPages(totalCount: nat, pageSize: nat): (r: nat)
    requires pageSize > 0
    ensures r * pageSize >= totalCount
    ensures r > 0 ==> (r - 1) * pageSize < totalCount
  {
    var q := (totalCount + pageSize - 1) / pageSize;
    assert totalCount + pageSize - 1 == q * pageSize + (totalCount + pageSize - 1) % pageSize;
    q
  }

  /** `Math.floor((start - 1) / pageSize) + 1`: the page that holds item number `start`.
      Dafny's division by a positive divisor rounds down, as `Math.floor` does. */
  function CurrentPage(start: int, pageSize: nat): (r: int)
    requires pageSize > 0
    ensures (r - 1) * pageSize < start <= r * pageSize
  {
    var q := (start - 1) / pageSize;
    assert start - 1 == q * pageSize + (start - 1) % pageSize;
    assert (q + 1) * pageSize == q * pageSize + pageSize;
    q + 1
  }

  /** The pages `lo..hi` in order (empty when `lo > hi`). */
  function Run(lo: int, hi: int): (r: seq<PageItem>)
    ensures |r| == if hi >= lo then hi - lo + 1 else 0
  {
    seq(if hi >= lo then hi - lo + 1 else 0, k => Page(lo + k))
  }

  /** The page strip: every page when there are at most seven; otherwise the
      first page, the neighbours of the current page and the last page, with
      an ellipsis wherever pages are skipped. */
  function PageList(totalPages: int, currentPage: int): seq<PageItem> {
    if totalPages <= MaxPlainPages then Run(1, totalPages)
    else
      [Page(1)]
      + (if currentPage > 3 then [Ellipsis] else [])
      + Run(Max(2, currentPage - 1), Min(totalPages - 1, currentPage + 1))
      + (if currentPage < totalPages - 2 then [Ellipsis] else [])
      + [Page(totalPages)]
  }

  /** The `pageNumbers` builder: pushes entries onto an empty list. */
  method PageNumbers(totalPages: int, currentPage: int) returns (pages: seq<PageItem>)
    ensures pages == PageList(totalPages, currentPage)
  {
    pages := [];
    if totalPages <= MaxPlainPages {
      var i := 1;
      while i <= totalPages
        invariant 1 <= i <= Max(totalPages, 0) + 1
        invariant pages == Run(1, i - 1)
      {
        pages := pages + [Page(i)];
        i := i + 1;
      }
    } else {
      pages := pages + [Page(1)];
      if currentPage > 3 {
        pages := pages + [Ellipsis];
      }
      var lo, hi := Max(2, currentPage - 1), Min(totalPages - 1, currentPage + 1);
      var head := pages;
      var i := lo;
      while i <= hi
        invariant lo <= i <= Max(hi + 1, lo)
        invariant pages == head + Run(lo, i - 1)
      {
        pages := pages + [Page(i)];
        i := i + 1;
      }
      if currentPage < totalPages - 2 {
        pages := pages + [Ellipsis];
      }
      pages := pages + [Page(totalPages)];
    }
  }

  /** Seven pages or fewer: exactly the pages 1..totalPages, no ellipsis. */
  lemma PlainPageList(totalPages: int, currentPage: int)
    requires totalPages <= MaxPlainPages
    ensures var r := PageList(totalPages, currentPage);
            && |r| == Max(totalPages, 0)
            && forall i :: 0 <= i < |r| ==> r[i] == Page(i + 1)
  {
  }

  /** More than seven pages: from 1 to the last page, at most seven entries,
      ellipses exactly where the current page is far from either end. */
  lemma CondensedPageList(totalPages: int, currentPage: int)
    requires totalPages > MaxPlainPages
    ensures var r := PageList(totalPages, currentPage);
            && 3 <= |r| <= MaxPlainPages
            && r[0] == Page(1) && r[|r| - 1] == Page(totalPages)
            && (1 <= currentPage <= totalPages ==>
                  && (r[1] == Ellipsis <==> currentPage > 3)
                  && (r[|r| - 2] == Ellipsis <==> currentPage < totalPages - 2))
  {
    var r := PageList(totalPages, currentPage);
    var lead := if currentPage > 3 then [Ellipsis] else [];
    var mid := Run(Max(2, currentPage - 1), Min(totalPages - 1, currentPage + 1));
    var trail := if currentPage < totalPages - 2 then [Ellipsis] else [];
    assert r == [Page(1)] + lead + mid + trail + [Page(totalPages)];
    if 1 <= currentPage <= totalPages {
      if currentPage <= 3 {
        assert mid[0] == Page(2);
        assert r[1] == mid[0];
      }
      if currentPage >= totalPages - 2 {
        assert mid[|mid| - 1] == Page(totalPages - 1);
        assert r[|r| - 2] == mid[|mid| - 1];
      }
    }
  }

  /** The page numbers in the strip strictly increase. */
  lemma PageNumbersIncrease(totalPages: int, currentPage: int)
    ensures var r := PageList(totalPages, currentPage);
            forall i, j :: 0 <= i < j < |r| && r[i].Page? && r[j].Page? ==> r[i].number < r[j].number
  {
    var r := PageList(totalPages, currentPage);
    if totalPages > MaxPlainPages {
      var lead := if currentPage > 3 then [Ellipsis] else [];
      var lo, hi := Max(2, currentPage - 1), Min(totalPages - 1, currentPage + 1);
      var mid := Run(lo, hi);
      var trail := if currentPage < totalPages - 2 then [Ellipsis] else [];
      assert r == [Page(1)] + lead + mid + trail + [Page(totalPages)];
      var a := 1 + |lead|;
      var b := a + |mid|;
      assert forall i :: a <= i < b ==> r[i] == Page(lo + i - a);
      assert forall i :: b <= i < |r| - 1 ==> r[i] == Ellipsis;
      assert forall i :: 0 < i < a ==> r[i] == Ellipsis;
    }
  }

  /** A page the user is on (within range) always has its own button. */
  lemma CurrentPageShown(totalPages: int, currentPage: int)
    requires 1 <= currentPage <= totalPages
    ensures Page(currentPage) in PageList(totalPages, currentPage)
  {
    var r := PageList(totalPages, currentPage);
    if totalPages <= MaxPlainPages {
      assert r[currentPage - 1] == Page(currentPage);
    } else if currentPage == 1 {
      assert r[0] == Page(1);
    } else if currentPage == totalPages {
      assert r[|r| - 1] == Page(totalPages);
    } else {
      var lead := if currentPage > 3 then [Ellipsis] else [];
      var lo, hi := Max(2, currentPage - 1), Min(totalPages - 1, currentPage + 1);
      var mid := Run(lo, hi);
      var trail := if currentPage < totalPages - 2 then [Ellipsis] else [];
      assert r == [Page(1)] + lead + mid + trail + [Page(totalPages)];
      assert mid[currentPage - lo] == Page(currentPage);
      assert r[1 + |lead| + currentPage - lo] == Page(currentPage);
    }
  }

  /** The strip of more than seven pages, cut into its five parts. */
  lemma CondensedParts(totalPages: int, currentPage: int)
    requires totalPages > MaxPlainPages
    ensures var r := PageList(totalPages, currentPage);
            var lead := if currentPage > 3 then 1 else 0;
            var lo, hi := Max(2, currentPage - 1), Min(totalPages - 1, currentPage + 1);
            var b := 1 + lead + |Run(lo, hi)|;
            && |r| == b + (if currentPage < totalPages - 2 then 1 else 0) + 1
            && r[0] == Page(1) && r[|r| - 1] == Page(totalPages)
            && (forall i :: 1 + lead <= i < b ==> r[i] == Page(lo + i - 1 - lead))
            && (forall i :: 0 < i < 1 + lead ==> r[i] == Ellipsis)
            && (forall i :: b <= i < |r| - 1 ==> r[i] == Ellipsis)
  {
    var r := PageList(totalPages, currentPage);
    var lead := if currentPage > 3 then [Ellipsis] else [];
    var lo, hi := Max(2, currentPage - 1), Min(totalPages - 1, currentPage + 1);
    var mid := Run(lo, hi);
    var trail := if currentPage < totalPages - 2 then [Ellipsis] else [];
    assert r == [Page(1)] + lead + mid + trail + [Page(totalPages)];
  }

  /** Adjacent buttons show adjacent pages. */
  lemma AdjacentPagesConsecutive(totalPages: int, currentPage: int)
    ensures var r := PageList(totalPages, currentPage);
            forall i :: 0 <= i < |r| - 1 && r[i].Page? && r[i + 1].Page? ==>
              r[i + 1].number == r[i].number + 1
  {
    if totalPages > MaxPlainPages {
      CondensedParts(totalPages, currentPage);
    }
  }

  /** Each ellipsis stands between two buttons that skip at least one page. */
  lemma EllipsisMarksGap(totalPages: int, currentPage: int)
    ensures var r := PageList(totalPages, currentPage);
            forall i :: 0 <= i < |r| && r[i] == Ellipsis ==>
              && 0 < i < |r| - 1 && r[i - 1].Page? && r[i + 1].Page?
              && r[i + 1].number >= r[i - 1].number + 2
  {
    if totalPages > MaxPlainPages {
      CondensedParts(totalPages, currentPage);
    }
  }

  /** `handlePageChange(page)`: the item range page `page` shows. */
  function PageChange(page: int, pageSize: nat, totalCount: nat): (r: Range)
    requires pageSize > 0
    ensures CurrentPage(r.start, pageSize) == page
    ensures r.end - r.start + 1 <= pageSize
    ensures 1 <= page <= TotalPages(totalCount, pageSize) ==> 1 <= r.start <= r.end <= totalCount
    ensures forall x :: 1 <= x <= totalCount ==> (r.start <= x <= r.end <==> CurrentPage(x, pageSize) == page)
  {
    var start := (page - 1) * pageSize + 1;
    var end := Min(page * pageSize, totalCount);
    PageStartRoundTrip(page, pageSize);
    PageFits(page, pageSize, totalCount);
    PageTiles(page, pageSize, totalCount);
    Range(start, end)
  }

  /** Item `x` lies on page `page` exactly when it is past the previous pages
      and within the first `page` pages. */
  lemma OnPage(x: int, page: int, pageSize: nat)
    requires pageSize > 0
    ensures CurrentPage(x, pageSize) == page <==> (page - 1) * pageSize < x <= page * pageSize
  {
    var c := CurrentPage(x, pageSize);
    if (page - 1) * pageSize < x <= page * pageSize {
      if c < page {
        MulMonotone(c, page - 1, pageSize);
      } else if c > page {
        MulMonotone(page, c - 1, pageSize);
      }
    }
  }

  /** The items of `1..totalCount` that page `page` shows are exactly those on that page. */
  lemma PageTiles(page: int, pageSize: nat, totalCount: nat)
    requires pageSize > 0
    ensures forall x :: 1 <= x <= totalCount ==>
              ((page - 1) * pageSize + 1 <= x <= Min(page * pageSize, totalCount) <==> CurrentPage(x, pageSize) == page)
  {
    forall x | 1 <= x <= totalCount
      ensures (page - 1) * pageSize + 1 <= x <= Min(page * pageSize, totalCount) <==> CurrentPage(x, pageSize) == page
    {
      OnPage(x, page, pageSize);
    }
  }

  lemma PageStartRoundTrip(page: int, pageSize: nat)
    requires pageSize > 0
    ensures CurrentPage((page - 1) * pageSize + 1, pageSize) == page
  {
    var c := CurrentPage((page - 1) * pageSize + 1, pageSize);
    assert (c - 1) * pageSize < (page - 1) * pageSize + 1 <= c * pageSize;
    assert (c - 1) * pageSize <= (page - 1) * pageSize;
    assert (page - 1) * pageSize < c * pageSize;
    if c - 1 > page - 1 {
      MulMonotone(page - 1 + 1, c - 1, pageSize);
    } else if c < page {
      MulMonotone(c + 0, page - 1, pageSize);
    }
  }

  lemma MulMonotone(a: int, b: int, k: nat)
    requires a <= b
    ensures a * k <= b * k
  {
    assert b * k - a * k == (b - a) * k;
  }

  lemma PageFits(page: int, pageSize: nat, totalCount: nat)
    requires pageSize > 0
    ensures Min(page * pageSize, totalCount) - ((page - 1) * pageSize + 1) + 1 <= pageSize
    ensures 1 <= page <= TotalPages(totalCount, pageSize) ==>
              (page - 1) * pageSize + 1 <= Min(page * pageSize, totalCount)
  {
    assert page * pageSize == (page - 1) * pageSize + pageSize;
    var t := TotalPages(totalCount, pageSize);
    if 1 <= page <= t {
      MulMonotone(page - 1, t - 1, pageSize);
      assert (page - 1) * pageSize >= 0 by {
        MulMonotone(0, page - 1, pageSize);
      }
    }
  }

  /** `handlePrevPage`: moves one page back unless already on page 1 (`None`: no change). */
  function PrevPage(start: int, pageSize: nat, totalCount: nat): (r: Option<Range>)
    requires pageSize > 0
    ensures r.Some? <==> CurrentPage(start, pageSize) > 1
    ensures r.Some? ==> CurrentPage(r.value.start, pageSize) == CurrentPage(start, pageSize) - 1
    ensures r.Some? && CurrentPage(start, pageSize) <= TotalPages(totalCount, pageSize) ==>
              1 <= CurrentPage(r.value.start, pageSize) <= TotalPages(totalCount, pageSize)
    ensures r.Some? ==> r.value == PageChange(CurrentPage(start, pageSize) - 1, pageSize, totalCount)
    ensures r.Some? ==> r.value.end - r.value.start + 1 <= pageSize
    ensures r.Some? && CurrentPage(start, pageSize) <= TotalPages(totalCount, pageSize) + 1 ==>
              1 <= r.value.start <= r.value.end <= totalCount
    ensures r.Some? ==> forall x :: 1 <= x <= totalCount ==>
              (r.value.start <= x <= r.value.end <==> CurrentPage(x, pageSize) == CurrentPage(start, pageSize) - 1)
  {
    var current := CurrentPage(start, pageSize);
    if current > 1 then Some(PageChange(current - 1, pageSize, totalCount)) else None
  }

  /** `handleNextPage`: moves one page on unless already on the last page. */
  function NextPage(start: int, pageSize: nat, totalCount: nat): (r: Option<Range>)
    requires pageSize > 0
    ensures r.Some? <==> CurrentPage(start, pageSize) < TotalPages(totalCount, pageSize)
    ensures r.Some? ==> CurrentPage(r.value.start, pageSize) == CurrentPage(start, pageSize) + 1
    ensures r.Some? && CurrentPage(start, pageSize) >= 1 ==>
              1 <= CurrentPage(r.value.start, pageSize) <= TotalPages(totalCount, pageSize)
    ensures r.Some? ==> r.value == PageChange(CurrentPage(start, pageSize) + 1, pageSize, totalCount)
    ensures r.Some? ==> r.value.end - r.value.start + 1 <= pageSize
    ensures r.Some? && CurrentPage(start, pageSize) >= 0 ==> 1 <= r.value.start <= r.value.end <= totalCount
    ensures r.Some? ==> forall x :: 1 <= x <= totalCount ==>
              (r.value.start <= x <= r.value.end <==> CurrentPage(x, pageSize) == CurrentPage(start, pageSize) + 1)
  {
    var current := CurrentPage(start, pageSize);
    if current < TotalPages(totalCount, pageSize) then Some(PageChange(current + 1, pageSize, totalCount)) else None
  }

  /** The paginator is drawn unless there is at most one page or no data. */
  predicate Visible(totalCount: nat, pageSize: nat)
    requires pageSize > 0
  {
    !(TotalPages(totalCount, pageSize) <= 1 || totalCount == 0)
  }

  /** It is drawn exactly when the items do not fit on one page. */
  lemma VisibleIffMoreThanOnePage(totalCount: nat, pageSize: nat)
    requires pageSize > 0
    ensures Visible(totalCount, pageSize) <==> totalCount > pageSize
  {
    var t := TotalPages(totalCount, pageSize);
    if t >= 2 {
      MulMonotone(1, t - 1, pageSize);
    } else if t == 1 {
      assert totalCount <= pageSize;
    }
  }
}
