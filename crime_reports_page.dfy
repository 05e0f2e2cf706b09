/**
  * The Crime Reports table: its filter and paging state, the query key and export body
  * built from that state, and the paging with at least one page.
  */
module CrimeReportsPage {
  import opened Wrappers
  import opened Schema
  import opened Query
  import opened Paging
  import opened CrimeListing

  const PerPage: nat := 10

  /** `v !== sentinel ? v : undefined`. */
  function UnlessSentinel(v: string, sentinel: string): (p: Param)
    ensures p.None? <==> v == sentinel
    ensures p.Some? ==> p.value == v
  {
    if v != sentinel then Some(v) else None
  }

  /** `v || undefined`. */
  function UnlessEmpty(v: string): (p: Param)
    ensures p.None? <==> v == ""
    ensures p.Some? ==> p.value == v
  {
    if v != "" then Some(v) else None
  }

  /** The `/api/crimes` query key: sentinel type and status left out, range and search sent as they stand. */
  function ListingKey(crimeType: string, arrestStatus: string, dateRange: string, search: string): CrimeFilters {
    CrimeFilters(UnlessSentinel(crimeType, AllTypes), UnlessSentinel(arrestStatus, AllStatuses), Some(dateRange), Some(search))
  }

  /** The `/api/export-crimes` body: sentinel type and status, and an empty range or search, left out. */
  function ExportBody(crimeType: string, arrestStatus: string, dateRange: string, search: string): CrimeFilters {
    CrimeFilters(UnlessSentinel(crimeType, AllTypes), UnlessSentinel(arrestStatus, AllStatuses), UnlessEmpty(dateRange), UnlessEmpty(search))
  }

  /** Neither request ever carries a sentinel, so the export, which has no sentinel check, never filters on one. */
  lemma NoSentinelSent(crimeType: string, arrestStatus: string, dateRange: string, search: string)
    ensures ListingKey(crimeType, arrestStatus, dateRange, search).crimeType != Some(AllTypes)
    ensures ListingKey(crimeType, arrestStatus, dateRange, search).status != Some(AllStatuses)
    ensures ExportBody(crimeType, arrestStatus, dateRange, search).crimeType != Some(AllTypes)
    ensures ExportBody(crimeType, arrestStatus, dateRange, search).status != Some(AllStatuses)
  {
  }

  /**
    * Whatever the filters, the export holds exactly the rows the table lists, each as often,
    * under either combination of the `.where` calls.
    */
  lemma ExportMatchesTable(db: Database, toDay: string -> Day, rule: WhereRule,
                           crimeType: string, arrestStatus: string, dateRange: string, search: string)
    ensures multiset(ExportRows(db, ExportBody(crimeType, arrestStatus, dateRange, search), toDay, rule)) ==
            multiset(Crimes(db, ListingKey(crimeType, arrestStatus, dateRange, search), toDay, rule))
  {
    var key := ListingKey(crimeType, arrestStatus, dateRange, search);
    var body := ExportBody(crimeType, arrestStatus, dateRange, search);
    var exported := ExportRows(db, body, toDay, rule);
    var listed := Crimes(db, key, toDay, rule);
    forall r ensures multiset(exported)[r] == multiset(listed)[r] {
      SameSelection(toDay, rule, crimeType, arrestStatus, dateRange, search, r);
    }
  }

  /** The two requests select the same rows: the listing skips the sentinels the export never receives. */
  lemma SameSelection(toDay: string -> Day, rule: WhereRule,
                      crimeType: string, arrestStatus: string, dateRange: string, search: string, r: CrimeRow)
    ensures Selected(rule, ListingKey(crimeType, arrestStatus, dateRange, search), Some(AllTypes), Some(AllStatuses), toDay, r) <==>
            Selected(rule, ExportBody(crimeType, arrestStatus, dateRange, search), None, None, toDay, r)
  {
    var key := ListingKey(crimeType, arrestStatus, dateRange, search);
    var body := ExportBody(crimeType, arrestStatus, dateRange, search);
    assert Applies(key.crimeType, Some(AllTypes)) <==> Applies(body.crimeType, None);
    assert Applies(key.status, Some(AllStatuses)) <==> Applies(body.status, None);
    assert DateRangeBounds(key.dateRange) == DateRangeBounds(body.dateRange);
    assert Truthy(key.search) <==> Truthy(body.search);
  }

  /** The response as the table receives it: a JSON array, or anything else (an error object). */
  datatype Response = JsonArray(items: seq<CrimeRow>) | NotAnArray

  /** `Array.isArray(crimesData) ? crimesData : []`. */
  function CrimesOf(data: Response): (crimes: seq<CrimeRow>)
    ensures data.JsonArray? ==> crimes == data.items
    ensures data.NotAnArray? ==> crimes == []
  {
    if data.JsonArray? then data.items else []
  }

  /** A response that is not an array shows an empty table on its single page. */
  lemma NotAnArrayIsEmpty(page: int)
    ensures GuardedTotalPages(|CrimesOf(NotAnArray)|, PerPage) == 1
    ensures PageItems(CrimesOf(NotAnArray), page, PerPage) == []
  {
  }

  /** The `CrimeReportsTable` component's `useState` fields that drive the table. */
  class CrimeReportsState {
    var crimeType: string
    var arrestStatus: string
    var dateRangeInput: string
    var dateRange: string
    var searchInput: string
    var searchQuery: string
    var currentPage: int

    /** With the `|| 1` guard the page number never drops below 1. */
    predicate Valid()
      reads this
    {
      currentPage >= 1
    }

    function Key(): CrimeFilters
      reads this
    {
      ListingKey(crimeType, arrestStatus, dateRange, searchQuery)
    }

    function Body(): CrimeFilters
      reads this
    {
      ExportBody(crimeType, arrestStatus, dateRange, searchQuery)
    }

    constructor ()
      ensures Valid() && currentPage == 1
      ensures Key() == CrimeFilters(None, None, Some(""), Some("")) && Body() == CrimeFilters(None, None, None, None)
      ensures dateRangeInput == "" && searchInput == ""
    {
      crimeType := AllTypes;
      arrestStatus := AllStatuses;
      dateRangeInput := "";
      dateRange := "";
      searchInput := "";
      searchQuery := "";
      currentPage := 1;
    }

    /** The crime-type select: the filter changes and the table goes back to page 1. */
    method SelectCrimeType(v: string)
      requires Valid()
      modifies this
      ensures Valid() && crimeType == v && currentPage == 1
      ensures arrestStatus == old(arrestStatus) && dateRange == old(dateRange) && searchQuery == old(searchQuery)
      ensures dateRangeInput == old(dateRangeInput) && searchInput == old(searchInput)
    {
      crimeType := v;
      currentPage := 1;
    }

    /** The arrest-status select: the filter changes and the table goes back to page 1. */
    method SelectArrestStatus(v: string)
      requires Valid()
      modifies this
      ensures Valid() && arrestStatus == v && currentPage == 1
      ensures crimeType == old(crimeType) && dateRange == old(dateRange) && searchQuery == old(searchQuery)
      ensures dateRangeInput == old(dateRangeInput) && searchInput == old(searchInput)
    {
      arrestStatus := v;
      currentPage := 1;
    }

    /** Typing in the date-range box changes neither request. */
    method TypeDateRange(v: string)
      modifies this
      ensures dateRangeInput == v && Key() == old(Key()) && Body() == old(Body())
      ensures searchInput == old(searchInput) && currentPage == old(currentPage)
    {
      dateRangeInput := v;
    }

    /** `handleDateRange`: the typed range becomes the requests' range; the page number is kept. */
    method ApplyDateRange()
      modifies this
      ensures dateRange == old(dateRangeInput)
      ensures crimeType == old(crimeType) && arrestStatus == old(arrestStatus) && searchQuery == old(searchQuery)
      ensures dateRangeInput == old(dateRangeInput) && searchInput == old(searchInput) && currentPage == old(currentPage)
    {
      dateRange := dateRangeInput;
    }

    /** Typing in the search box changes neither request. */
    method TypeSearch(v: string)
      modifies this
      ensures searchInput == v && Key() == old(Key()) && Body() == old(Body())
      ensures dateRangeInput == old(dateRangeInput) && currentPage == old(currentPage)
    {
      searchInput := v;
    }

    /** `handleSearch`: the typed term becomes the requests' search; the page number is kept. */
    method ApplySearch()
      modifies this
      ensures searchQuery == old(searchInput)
      ensures crimeType == old(crimeType) && arrestStatus == old(arrestStatus) && dateRange == old(dateRange)
      ensures dateRangeInput == old(dateRangeInput) && searchInput == old(searchInput) && currentPage == old(currentPage)
    {
      searchQuery := searchInput;
    }

    /** Reset Filters: every filter and input back to its default; the page number is not touched. */
    method ResetFilters()
      modifies this
      ensures Key() == CrimeFilters(None, None, Some(""), Some("")) && Body() == CrimeFilters(None, None, None, None)
      ensures dateRangeInput == "" && searchInput == ""
      ensures currentPage == old(currentPage)
    {
      crimeType := AllTypes;
      arrestStatus := AllStatuses;
      dateRangeInput := "";
      dateRange := "";
      searchInput := "";
      searchQuery := "";
    }

    /** The rows of the current page. */
    function Visible(data: Response): seq<CrimeRow>
      reads this
    {
      PageItems(CrimesOf(data), currentPage, PerPage)
    }

    /** The previous button: one page back, at least page 1. */
    method ClickPrev()
      requires Valid()
      modifies this
      ensures Valid() && currentPage == Prev(old(currentPage)) && Key() == old(Key())
      ensures crimeType == old(crimeType) && arrestStatus == old(arrestStatus)
      ensures dateRangeInput == old(dateRangeInput) && dateRange == old(dateRange)
      ensures searchInput == old(searchInput) && searchQuery == old(searchQuery)
    {
      if !PrevDisabled(currentPage) {
        currentPage := Prev(currentPage);
      }
    }

    /** The next button: one page on, at most the last page, and never page 0 even with no records. */
    method ClickNext(totalRecords: nat)
      requires Valid()
      modifies this
      ensures Valid() && currentPage == Next(old(currentPage), GuardedTotalPages(totalRecords, PerPage))
      ensures Key() == old(Key())
      ensures crimeType == old(crimeType) && arrestStatus == old(arrestStatus)
      ensures dateRangeInput == old(dateRangeInput) && dateRange == old(dateRange)
      ensures searchInput == old(searchInput) && searchQuery == old(searchQuery)
    {
      var totalPages := GuardedTotalPages(totalRecords, PerPage);
      if !NextDisabled(currentPage, totalPages) {
        currentPage := Next(currentPage, totalPages);
      }
    }

    /**
      * A button of the page-button row, which here is rendered without the `<= totalPages`
      * check: from a page past the last, a button can lead past the last page.
      */
    method ClickPageButton(totalRecords: nat, i: nat)
      requires Valid() && i < |FullWindow(currentPage, GuardedTotalPages(totalRecords, PerPage))|
      modifies this
      ensures Valid() && currentPage == old(FullWindow(currentPage, GuardedTotalPages(totalRecords, PerPage)))[i]
      ensures Key() == old(Key())
      ensures crimeType == old(crimeType) && arrestStatus == old(arrestStatus)
      ensures dateRangeInput == old(dateRangeInput) && dateRange == old(dateRange)
      ensures searchInput == old(searchInput) && searchQuery == old(searchQuery)
    {
      var w := FullWindow(currentPage, GuardedTotalPages(totalRecords, PerPage));
      currentPage := w[i];
    }
  }
}
