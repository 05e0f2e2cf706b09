/**
  * The Officers page: the filter and paging state of the officer list, and the case count
  * each row shows.
  */
module OfficersPage {
  import opened Wrappers
  import opened Grouping
  import opened Schema
  import opened Query
  import opened Paging
  import opened OfficerListing

  const PerPage: nat := 10

  /** The initial query key: both sentinels and an empty search, sent as they stand. */
  const DefaultFilters: OfficerFilters := OfficerFilters(Some(AllPositions), Some(AllAreas), Some(""))

  /** The initial filters select every officer, whichever way the `.where` calls combine. */
  lemma DefaultFiltersSelectAll(db: Database, rule: WhereRule)
    ensures multiset(Officers(db, DefaultFilters, rule)) == multiset(OfficerRows(db))
  {
    assert !Applies(DefaultFilters.position, Some(AllPositions));
    assert !Applies(DefaultFilters.area, Some(AllAreas));
    assert !Truthy(DefaultFilters.search);
    assert forall r :: Selected(rule, DefaultFilters, r);
    var rows := Officers(db, DefaultFilters, rule);
    forall r ensures multiset(rows)[r] == multiset(OfficerRows(db))[r] {
      assert Selected(rule, DefaultFilters, r);
    }
  }

  /**
    * The count a row shows is the number of reports the officer filed, 0 included, and is the
    * count the top-officers chart uses for the same officer.
    */
  lemma DisplayedCaseCount(db: Database, i: nat)
    requires i < |db.policeOfficers|
    ensures DisplayCount(OfficerRows(db)[i].caseCount) == Count(ReportOfficerIds(db), db.policeOfficers[i].id)
    ensures DisplayCount(OfficerRows(db)[i].caseCount) == OfficerCaseRows(db)[i].count
  {
    var n := Count(ReportOfficerIds(db), db.policeOfficers[i].id);
    assert OfficerRows(db)[i].caseCount == if n == 0 then None else Some(n);
  }

  /** The `Officers` component's `useState` fields. */
  class OfficersState {
    var positionFilter: string
    var areaFilter: string
    var searchQuery: string
    var currentPage: int

    /** The page can reach 0 (see `ClickNext`), never below. */
    predicate Valid()
      reads this
    {
      currentPage >= 0
    }

    /** The `/api/officers` query key: every field sent as it stands, sentinels included. */
    function Filters(): OfficerFilters
      reads this
    {
      OfficerFilters(Some(positionFilter), Some(areaFilter), Some(searchQuery))
    }

    constructor ()
      ensures Valid() && Filters() == DefaultFilters && currentPage == 1
    {
      positionFilter := AllPositions;
      areaFilter := AllAreas;
      searchQuery := "";
      currentPage := 1;
    }

    /** The position select; the page number is kept. */
    method SelectPosition(v: string)
      modifies this
      ensures Filters() == old(Filters()).(position := Some(v)) && currentPage == old(currentPage)
    {
      positionFilter := v;
    }

    /** The area select; the page number is kept. */
    method SelectArea(v: string)
      modifies this
      ensures Filters() == old(Filters()).(area := Some(v)) && currentPage == old(currentPage)
    {
      areaFilter := v;
    }

    /** Typing in the search box changes the query at once; the page number is kept. */
    method TypeSearch(v: string)
      modifies this
      ensures Filters() == old(Filters()).(search := Some(v)) && currentPage == old(currentPage)
    {
      searchQuery := v;
    }

    /** The officers of the current page. */
    function Visible(officers: seq<OfficerRow>): seq<OfficerRow>
      reads this
    {
      PageItems(officers, currentPage, PerPage)
    }

    /** The previous button: one page back, at least page 1. */
    method ClickPrev()
      requires Valid()
      modifies this
      ensures Valid() && currentPage == Prev(old(currentPage)) && Filters() == old(Filters())
    {
      if !PrevDisabled(currentPage) {
        currentPage := Prev(currentPage);
      }
    }

    /** The next button: one page on, at most the last page; with no officers page 1 goes to 0. */
    method ClickNext(totalRecords: nat)
      requires Valid()
      modifies this
      ensures Valid() && currentPage == Next(old(currentPage), TotalPages(totalRecords, PerPage))
      ensures Filters() == old(Filters())
      ensures totalRecords == 0 && old(currentPage) == 1 ==> currentPage == 0
    {
      var totalPages := TotalPages(totalRecords, PerPage);
      if !NextDisabled(currentPage, totalPages) {
        currentPage := Next(currentPage, totalPages);
      }
    }

    /** A button of the page-button row; every one of them leads to a page from 1 to the last. */
    method ClickPageButton(totalRecords: nat, i: nat)
      requires Valid() && i < |Window(currentPage, TotalPages(totalRecords, PerPage))|
      modifies this
      ensures Valid() && currentPage == old(Window(currentPage, TotalPages(totalRecords, PerPage)))[i]
      ensures Filters() == old(Filters())
    {
      var w := Window(currentPage, TotalPages(totalRecords, PerPage));
      assert w[i] in w;
      assert w[i] >= 0 by {
        var full := FullWindow(currentPage, TotalPages(totalRecords, PerPage));
        var k :| 0 <= k < |full| && full[k] == w[i];
      }
      currentPage := w[i];
    }
  }
}
