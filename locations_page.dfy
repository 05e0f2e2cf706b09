/**
  * The Locations page: the filter and paging state of the location list, and the crime
  * count each row shows. The map is not part of this model.
  */
module LocationsPage {
  import opened Wrappers
  import opened Grouping
  import opened Schema
  import opened Query
  import opened Paging
  import opened LocationListing

  const PerPage: nat := 10

  /** The initial query key: the sentinel type and an empty search, sent as they stand. */
  const DefaultFilters: LocationFilters := LocationFilters(Some(AllTypes), Some(""))

  /** The initial filters select every location, whichever way the `.where` calls combine. */
  lemma DefaultFiltersSelectAll(db: Database, rule: WhereRule)
    ensures multiset(Locations(db, DefaultFilters, rule)) == multiset(LocationRows(db))
  {
    assert !Applies(DefaultFilters.addressType, Some(AllTypes));
    assert !Truthy(DefaultFilters.search);
    assert forall r :: Selected(rule, DefaultFilters, r);
    var rows := Locations(db, DefaultFilters, rule);
    forall r ensures multiset(rows)[r] == multiset(LocationRows(db))[r] {
      assert Selected(rule, DefaultFilters, r);
    }
  }

  /** The count a row shows is the number of crimes recorded at the location, 0 included. */
  lemma DisplayedCrimeCount(db: Database, i: nat)
    requires i < |db.locations|
    ensures DisplayCount(LocationRows(db)[i].crimeCount) == Count(CrimeLocationIds(db), db.locations[i].id)
  {
    var n := Count(CrimeLocationIds(db), db.locations[i].id);
    assert LocationRows(db)[i].crimeCount == if n == 0 then None else Some(n);
  }

  /** The `Locations` component's `useState` fields that drive the list. */
  class LocationsState {
    var addressType: string
    var searchQuery: string
    var currentPage: int

    /** The page can reach 0 (see `ClickNext`), never below. */
    predicate Valid()
      reads this
    {
      currentPage >= 0
    }

    /** The `/api/locations` query key: both fields sent as they stand, the sentinel included. */
    function Filters(): LocationFilters
      reads this
    {
      LocationFilters(Some(addressType), Some(searchQuery))
    }

    constructor ()
      ensures Valid() && Filters() == DefaultFilters && currentPage == 1
    {
      addressType := AllTypes;
      searchQuery := "";
      currentPage := 1;
    }

    /** The address-type select; the page number is kept. */
    method SelectAddressType(v: string)
      modifies this
      ensures Filters() == old(Filters()).(addressType := Some(v)) && currentPage == old(currentPage)
    {
      addressType := v;
    }

    /** Typing in the search box changes the query at once; the page number is kept. */
    method TypeSearch(v: string)
      modifies this
      ensures Filters() == old(Filters()).(search := Some(v)) && currentPage == old(currentPage)
    {
      searchQuery := v;
    }

    /** The locations of the current page. */
    function Visible(locations: seq<LocationRow>): seq<LocationRow>
      reads this
    {
      PageItems(locations, currentPage, PerPage)
    }

    /** The previous button: one page back, at least page 1. */
    method ClickPrev()
      requires Valid()
      modifies this
      ensures Valid() && currentPage == Prev(old(currentPage)) && Filters() == old(Filters())
    {
      if !PrevDisabled(currentPage) {
        currentPage := Prev(currentPage);
      }
    }

    /** The next button: one page on, at most the last page; with no locations page 1 goes to 0. */
    method ClickNext(totalRecords: nat)
      requires Valid()
      modifies this
      ensures Valid() && currentPage == Next(old(currentPage), TotalPages(totalRecords, PerPage))
      ensures Filters() == old(Filters())
      ensures totalRecords == 0 && old(currentPage) == 1 ==> currentPage == 0
    {
      var totalPages := TotalPages(totalRecords, PerPage);
      if !NextDisabled(currentPage, totalPages) {
        currentPage := Next(currentPage, totalPages);
      }
    }

    /** A button of the page-button row; every one of them leads to a page from 1 to the last. */
    method ClickPageButton(totalRecords: nat, i: nat)
      requires Valid() && i < |Window(currentPage, TotalPages(totalRecords, PerPage))|
      modifies this
      ensures Valid() && currentPage == old(Window(currentPage, TotalPages(totalRecords, PerPage)))[i]
      ensures Filters() == old(Filters())
    {
      var w := Window(currentPage, TotalPages(totalRecords, PerPage));
      assert w[i] in w;
      assert w[i] >= 0 by {
        var full := FullWindow(currentPage, TotalPages(totalRecords, PerPage));
        var k :| 0 <= k < |full| && full[k] == w[i];
      }
      currentPage := w[i];
    }
  }
}
