/**
  * The client-side paging every table page repeats: the number of pages, the slice of the
  * current page, the previous/next buttons and the row of page buttons. The page number is
  * the component's `currentPage`; the functions here compute what one render derives from
  * it, and the pages' classes change it.
  */
module Paging {
  import opened Sequences
  import opened Arithmetic

  function Min(a: int, b: int): int {
    if a <= b then a else b
  }

  function Max(a: int, b: int): int {
    if a >= b then a else b
  }

  /** `Math.ceil(totalRecords / recordsPerPage)`: the fewest pages that hold every record. */
  function TotalPages(n: nat, perPage: nat): (t: nat)
    requires perPage > 0
    ensures t * perPage >= n
    ensures t > 0 ==> (t - 1) * perPage < n
    ensures t == 0 <==> n == 0
  {
    (n + perPage - 1) / perPage
  }

  /** `Math.ceil(totalRecords / recordsPerPage) || 1`: as above, but one page when there are no records. */
  function GuardedTotalPages(n: nat, perPage: nat): (t: nat)
    requires perPage > 0
    ensures t >= 1
    ensures t == if n == 0 then 1 else TotalPages(n, perPage)
  {
    var t := TotalPages(n, perPage);
    if t == 0 then 1 else t
  }

  /** Where `Array.prototype.slice` starts or stops for a relative index `i` on `len` elements. */
  function SliceIndex(i: int, len: nat): (k: nat)
    ensures k <= len
    ensures 0 <= i <= len ==> k == i
    ensures i > len ==> k == len
    ensures i < 0 ==> k == Max(len + i, 0)
  {
    if i < 0 then Max(len + i, 0) else Min(i, len)
  }

  /** `s.slice(start, end)`: negative indices count from the end, and an empty run when `end` is not past `start`. */
  function JsSlice<T>(s: seq<T>, start: int, end: int): (r: seq<T>)
    ensures 0 <= start <= end <= |s| ==> r == s[start..end]
    ensures 0 <= end <= start ==> r == []
    ensures |r| <= |s|
  {
    var a := SliceIndex(start, |s|);
    var b := SliceIndex(end, |s|);
    if a < b then s[a..b] else []
  }

  /** `startIdx = (currentPage - 1) * recordsPerPage`. */
  function StartIndex(page: int, perPage: nat): int {
    (page - 1) * perPage
  }

  /** `endIdx = Math.min(startIdx + recordsPerPage, totalRecords)`. */
  function EndIndex(page: int, perPage: nat, n: nat): int {
    Min(StartIndex(page, perPage) + perPage, n)
  }

  /** The records shown on page `page`: `records.slice(startIdx, endIdx)`; never more than `perPage` of them. */
  function PageItems<T>(s: seq<T>, page: int, perPage: nat): (items: seq<T>)
    ensures |items| <= perPage
  {
    assert EndIndex(page, perPage, |s|) <= StartIndex(page, perPage) + perPage;
    JsSlice(s, StartIndex(page, perPage), EndIndex(page, perPage, |s|))
  }

  /**
    * A page from 1 to the last shows the records from `(page - 1) * perPage` up to the next
    * page's start or the end of the list, and at least one record.
    */
  lemma PageItemsOfPage<T>(s: seq<T>, page: int, perPage: nat)
    requires perPage > 0
    requires 1 <= page <= TotalPages(|s|, perPage)
    ensures PageItems(s, page, perPage) == s[(page - 1) * perPage..Min(page * perPage, |s|)]
    ensures PageItems(s, page, perPage) != []
    ensures 0 <= (page - 1) * perPage < |s| && page * perPage == (page - 1) * perPage + perPage
  {
    var t := TotalPages(|s|, perPage);
    var start := StartIndex(page, perPage);
    assert page * perPage == start + perPage;
    MulLe(0, page - 1, perPage);
    MulLe(page - 1, t - 1, perPage);
    assert 0 <= start < |s|;
  }

  /** Page 0 and the pages past the last show nothing. */
  lemma PageItemsOutside<T>(s: seq<T>, page: int, perPage: nat)
    requires perPage > 0
    requires page == 0 || page > TotalPages(|s|, perPage)
    ensures PageItems(s, page, perPage) == []
  {
    var t := TotalPages(|s|, perPage);
    var start := StartIndex(page, perPage);
    if page > t {
      MulLe(t, page - 1, perPage);
      assert start >= |s|;
    } else {
      assert start == -(perPage as int);
    }
  }

  /** Pages `1` to `k`, one after the other. */
  function Pages<T>(s: seq<T>, perPage: nat, k: nat): seq<T> {
    if k == 0 then [] else Pages(s, perPage, k - 1) + PageItems(s, k, perPage)
  }

  lemma {:induction false} PagesPrefix<T>(s: seq<T>, perPage: nat, k: nat)
    requires perPage > 0 && k <= TotalPages(|s|, perPage)
    ensures Pages(s, perPage, k) == s[..Min(k * perPage, |s|)]
  {
    if k > 0 {
      PageItemsOfPage(s, k, perPage);
      PagesPrefix(s, perPage, k - 1);
      var lo := (k - 1) * perPage;
      var hi := Min(k * perPage, |s|);
      assert 0 <= lo <= hi <= |s|;
      assert Min(lo, |s|) == lo;
      assert s[..lo] + s[lo..hi] == s[..hi];
    }
  }

  /** The pages in order give back the whole list: every record is on exactly one page. */
  lemma PagesConcatenate<T>(s: seq<T>, perPage: nat)
    requires perPage > 0
    ensures Pages(s, perPage, TotalPages(|s|, perPage)) == s
  {
    PagesPrefix(s, perPage, TotalPages(|s|, perPage));
    assert s[..|s|] == s;
  }

  /** `setCurrentPage(prev => Math.max(prev - 1, 1))`. */
  function Prev(page: int): (p: int)
    ensures p >= 1
    ensures page > 1 ==> p == page - 1
  {
    Max(page - 1, 1)
  }

  /** `setCurrentPage(prev => Math.min(prev + 1, totalPages))`. */
  function Next(page: int, totalPages: int): (p: int)
    ensures p <= totalPages
    ensures page < totalPages ==> p == page + 1
  {
    Min(page + 1, totalPages)
  }

  /** `disabled={currentPage === 1}`. */
  predicate PrevDisabled(page: int) {
    page == 1
  }

  /** `disabled={currentPage === totalPages}`. */
  predicate NextDisabled(page: int, totalPages: int) {
    page == totalPages
  }

  /** The previous button moves one page back and never below page 1; it is disabled only on page 1. */
  lemma PrevClamps(page: int)
    ensures Prev(page) >= 1
    ensures page > 1 ==> Prev(page) == page - 1
    ensures page <= 1 ==> Prev(page) == 1
    ensures PrevDisabled(page) ==> Prev(page) == page
  {
  }

  /** The next button moves one page on and never past the last page; on the last page it is disabled. */
  lemma NextClamps(page: int, totalPages: int)
    ensures Next(page, totalPages) <= totalPages
    ensures page < totalPages ==> Next(page, totalPages) == page + 1
    ensures page >= totalPages ==> Next(page, totalPages) == totalPages
    ensures NextDisabled(page, totalPages) ==> Next(page, totalPages) == page
  {
  }

  /**
    * With an unguarded page count, an empty list has no pages, so on page 1 the next button
    * is enabled and takes the page to 0; with the `|| 1` guard it is disabled there.
    */
  lemma EmptyListNext(perPage: nat)
    requires perPage > 0
    ensures !NextDisabled(1, TotalPages(0, perPage)) && Next(1, TotalPages(0, perPage)) == 0
    ensures NextDisabled(1, GuardedTotalPages(0, perPage)) && Next(1, GuardedTotalPages(0, perPage)) == 1
  {
  }

  /** Entry `i` of the page-button row: the page before (at least 1), the page itself, the page after (at most the last). */
  function WindowEntry(i: nat, page: int, totalPages: int): int {
    if i == 0 then Max(page - 1, 1)
    else if i == 1 then page
    else Min(page + 1, totalPages)
  }

  /** `Array.from({ length: Math.min(totalPages, 3) }, ...)` before any entry is dropped. */
  function FullWindow(page: int, totalPages: nat): (w: seq<int>)
    ensures |w| == Min(totalPages, 3)
    ensures forall i :: 0 <= i < |w| ==> w[i] == WindowEntry(i, page, totalPages)
  {
    seq(Min(totalPages, 3), i requires 0 <= i => WindowEntry(i, page, totalPages))
  }

  /** The page-button row of the pages that render an entry only `if (pageNumber <= totalPages)`. */
  function Window(page: int, totalPages: nat): (w: seq<int>)
    ensures forall x :: x in w <==> x in FullWindow(page, totalPages) && x <= totalPages
  {
    var w := Filter(FullWindow(page, totalPages), x => x <= totalPages);
    forall x ensures x in w <==> x in FullWindow(page, totalPages) && x <= totalPages {
      FilterMembership(FullWindow(page, totalPages), x => x <= totalPages, x);
    }
    w
  }

  /**
    * From a page within range the button row is the neighbours of the page: every button
    * points to a page that exists, the current page has a button, and nothing is dropped.
    */
  lemma WindowInRange(page: int, totalPages: nat)
    requires 1 <= page <= totalPages
    ensures Window(page, totalPages) == FullWindow(page, totalPages)
    ensures forall x :: x in FullWindow(page, totalPages) ==> 1 <= x <= totalPages && page - 1 <= x <= page + 1
    ensures page in FullWindow(page, totalPages)
  {
    var w := FullWindow(page, totalPages);
    forall x | x in w ensures 1 <= x <= totalPages && page - 1 <= x <= page + 1 {
      var i :| 0 <= i < |w| && w[i] == x;
      assert x == WindowEntry(i, page, totalPages);
    }
    forall i | 0 <= i < |w| ensures w[i] <= totalPages {
      assert w[i] in w;
    }
    FilterKeepsAll(w, x => x <= totalPages);
    assert w[if totalPages == 1 then 0 else 1] == page;
  }

  /** On page 1 of two pages or more, the first two buttons both show page 1. */
  lemma FirstPageRepeats(totalPages: nat)
    requires totalPages >= 2
    ensures FullWindow(1, totalPages)[..2] == [1, 1]
  {
    var w := FullWindow(1, totalPages);
    assert w[0] == 1 && w[1] == 1;
  }

  /**
    * Whatever the page, every button of the filtered row points to a page from 1 to the last;
    * a page past the last (left over after the list shrank) has no button of its own.
    */
  lemma WindowButtonsExist(page: int, totalPages: nat)
    requires page >= 1
    ensures forall x :: x in Window(page, totalPages) ==> 1 <= x <= totalPages
    ensures page > totalPages ==> page !in Window(page, totalPages)
  {
    var w := FullWindow(page, totalPages);
    assert forall i :: 0 <= i < |w| ==> 1 <= w[i];
  }

  /** Without the filter, a page past the last keeps a button of its own, which points past the last page. */
  lemma FullWindowPastTheEnd()
    ensures FullWindow(5, 2) == [4, 5]
  {
  }

  /** `Array.from({ length: totalPages }, (_, i) => i + 1)`: a button for every page. */
  function AllPageButtons(totalPages: nat): (b: seq<int>)
    ensures |b| == totalPages
    ensures forall x :: x in b <==> 1 <= x <= totalPages
  {
    var b := seq(totalPages, i requires 0 <= i => i + 1);
    forall x | 1 <= x <= totalPages ensures x in b {
      assert b[x - 1] == x;
    }
    b
  }
}
