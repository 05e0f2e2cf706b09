/**
  * The Weather page: its filter and paging state, and the series of the "Crime Count vs
  * Weather Over Time" chart, which sorts the combined rows by date in place and keeps the
  * first twenty.
  */
module WeatherPage {
  import opened Wrappers
  import opened Sequences
  import opened Schema
  import opened Query
  import opened Paging
  import opened WeatherListing
  import opened WeatherCrime

  const PerPage: nat := 10
  const ChartPoints: nat := 20

  const DefaultFilters: WeatherFilters := WeatherFilters(Some(""), Some(""))

  /** The initial filters select every weather record, whichever way the `.where` calls combine. */
  lemma DefaultFiltersSelectAll(db: Database, toDay: string -> Day, rule: WhereRule)
    ensures multiset(Weather(db, DefaultFilters, toDay, rule)) == multiset(db.weatherData)
  {
    var rows := Weather(db, DefaultFilters, toDay, rule);
    forall w ensures multiset(rows)[w] == multiset(db.weatherData)[w] {
      assert Selected(rule, DefaultFilters, toDay, w);
    }
  }

  /** The `Weather` component's `useState` fields. */
  class WeatherState {
    var dateRange: string
    var searchQuery: string
    var currentPage: int

    /** A page can be on page 0 (see `ClickNext`), never below. */
    predicate Valid()
      reads this
    {
      currentPage >= 0
    }

    /** The `/api/weather` query key. */
    function Filters(): WeatherFilters
      reads this
    {
      WeatherFilters(Some(dateRange), Some(searchQuery))
    }

    constructor ()
      ensures Valid() && Filters() == DefaultFilters && currentPage == 1
    {
      dateRange := "";
      searchQuery := "";
      currentPage := 1;
    }

    /** Typing in the date-range box changes the query at once; the page number is kept. */
    method TypeDateRange(v: string)
      modifies this
      ensures Filters() == old(Filters()).(dateRange := Some(v)) && currentPage == old(currentPage)
    {
      dateRange := v;
    }

    /** Typing in the search box changes the query at once; the page number is kept. */
    method TypeSearch(v: string)
      modifies this
      ensures Filters() == old(Filters()).(search := Some(v)) && currentPage == old(currentPage)
    {
      searchQuery := v;
    }

    /** The weather records of the current page. */
    function Visible(records: seq<WeatherRecord>): seq<WeatherRecord>
      reads this
    {
      PageItems(records, currentPage, PerPage)
    }

    /** The previous button: one page back, at least page 1. */
    method ClickPrev()
      requires Valid()
      modifies this
      ensures Valid() && currentPage == Prev(old(currentPage)) && Filters() == old(Filters())
    {
      if !PrevDisabled(currentPage) {
        currentPage := Prev(currentPage);
      }
    }

    /** The next button: one page on, at most the last page; with no records page 1 goes to 0. */
    method ClickNext(totalRecords: nat)
      requires Valid()
      modifies this
      ensures Valid() && currentPage == Next(old(currentPage), TotalPages(totalRecords, PerPage))
      ensures Filters() == old(Filters())
      ensures totalRecords == 0 && old(currentPage) == 1 ==> currentPage == 0
    {
      var totalPages := TotalPages(totalRecords, PerPage);
      if !NextDisabled(currentPage, totalPages) {
        currentPage := Next(currentPage, totalPages);
      }
    }

    /** A button of the page-button row; every one of them leads to a page from 1 to the last. */
    method ClickPageButton(totalRecords: nat, i: nat)
      requires Valid() && i < |Window(currentPage, TotalPages(totalRecords, PerPage))|
      modifies this
      ensures Valid() && currentPage == old(Window(currentPage, TotalPages(totalRecords, PerPage)))[i]
      ensures Filters() == old(Filters())
    {
      var w := Window(currentPage, TotalPages(totalRecords, PerPage));
      assert w[i] in w;
      assert w[i] >= 0 by {
        var full := FullWindow(currentPage, TotalPages(totalRecords, PerPage));
        var k :| 0 <= k < |full| && full[k] == w[i];
      }
      currentPage := w[i];
    }
  }

  /**
    * The comparator `new Date(a.date).getTime() - new Date(b.date).getTime()` as an order:
    * `timeOf` stands for the date parsing, and `a` may come first when its time is not later.
    */
  function ByTime(timeOf: string -> int): (WeatherCrimeRow, WeatherCrimeRow) -> bool {
    (a: WeatherCrimeRow, b: WeatherCrimeRow) => timeOf(a.date) <= timeOf(b.date)
  }

  /** Any two rows compare, and the order is transitive. */
  lemma ByTimeIsPreorder(timeOf: string -> int)
    ensures TotalPreorder(ByTime(timeOf))
  {
  }

  /**
    * The chart's series is the twenty earliest rows (all when there are fewer), earliest
    * first: every row left out is no earlier than every row shown.
    */
  lemma ChartSeriesEarliest(rows: seq<WeatherCrimeRow>, timeOf: string -> int)
    ensures var s := TopBy(rows, ChartPoints, ByTime(timeOf));
            && |s| == (if |rows| < ChartPoints then |rows| else ChartPoints)
            && (forall i, j :: 0 <= i < j < |s| ==> timeOf(s[i].date) <= timeOf(s[j].date))
            && exists rest: seq<WeatherCrimeRow> ::
                 && multiset(s) + multiset(rest) == multiset(rows)
                 && forall i, j :: 0 <= i < |s| && 0 <= j < |rest| ==> timeOf(s[i].date) <= timeOf(rest[j].date)
  {
    ByTimeIsPreorder(timeOf);
    var s := TopBy(rows, ChartPoints, ByTime(timeOf));
    assert Sorted(s, ByTime(timeOf));
  }

  /**
    * `weatherCrimeData.sort(...)` in place. Sorting is stable, so the result is the one
    * stable insertion sort gives: the rows in order of time, rows of the same time in their
    * original order.
    */
  method SortByTime(a: array<WeatherCrimeRow>, timeOf: string -> int)
    modifies a
    ensures a[..] == SortBy(old(a[..]), ByTime(timeOf))
  {
    ghost var o := a[..];
    var i := a.Length;
    while i > 0
      invariant 0 <= i <= a.Length
      invariant forall k :: 0 <= k < i ==> a[k] == o[k]
      invariant a[i..] == SortBy(o[i..], ByTime(timeOf))
    {
      i := i - 1;
      InsertDown(a, i, timeOf);
      SortByFront(o, i, ByTime(timeOf));
    }
    assert a[..] == a[0..] && o == o[0..];
  }

  /**
    * One step of the sort: the row at `i` moves right past the rows that come strictly
    * earlier, which shift one place left.
    */
  method InsertDown(a: array<WeatherCrimeRow>, i: nat, timeOf: string -> int)
    requires i < a.Length
    modifies a
    ensures forall k :: 0 <= k < i ==> a[k] == old(a[k])
    ensures a[i..] == Insert(old(a[i]), old(a[i + 1..]), ByTime(timeOf))
  {
    ghost var o := a[..];
    var x := a[i];
    var j := ShiftEarlier(a, i, timeOf);
    a[j] := x;
    InsertedByTime(a[..], o, i, j, timeOf);
  }

  /**
    * The shifting loop of `InsertDown`: the rows after `i` that are strictly earlier than
    * the row at `i` move one place left; `j` is where that row belongs.
    */
  method ShiftEarlier(a: array<WeatherCrimeRow>, i: nat, timeOf: string -> int) returns (j: nat)
    requires i < a.Length
    modifies a
    ensures i <= j < a.Length
    ensures forall k :: 0 <= k < i ==> a[k] == old(a[k])
    ensures forall k :: i <= k < j ==> a[k] == old(a[k + 1])
    ensures forall k :: j < k < a.Length ==> a[k] == old(a[k])
    ensures forall k :: i < k <= j ==> timeOf(old(a[k]).date) < timeOf(old(a[i]).date)
    ensures j + 1 == a.Length || timeOf(old(a[i]).date) <= timeOf(old(a[j + 1]).date)
  {
    ghost var o := a[..];
    var x := a[i];
    j := i;
    while j + 1 < a.Length && timeOf(a[j + 1].date) < timeOf(x.date)
      invariant i <= j < a.Length
      invariant forall k :: 0 <= k < i ==> a[k] == o[k]
      invariant forall k :: i <= k < j ==> a[k] == o[k + 1]
      invariant forall k :: j < k < a.Length ==> a[k] == o[k]
      invariant forall k :: i < k <= j ==> timeOf(o[k].date) < timeOf(x.date)
    {
      a[j] := a[j + 1];
      j := j + 1;
    }
  }

  /** `InsertedAt` for the order by time, stated with the times themselves. */
  lemma InsertedByTime(b: seq<WeatherCrimeRow>, o: seq<WeatherCrimeRow>, i: nat, j: nat, timeOf: string -> int)
    requires i <= j < |b| == |o|
    requires forall k :: i <= k < j ==> b[k] == o[k + 1]
    requires b[j] == o[i]
    requires forall k :: j < k < |b| ==> b[k] == o[k]
    requires forall k :: i < k <= j ==> timeOf(o[k].date) < timeOf(o[i].date)
    requires j + 1 == |o| || timeOf(o[i].date) <= timeOf(o[j + 1].date)
    ensures b[i..] == Insert(o[i], o[i + 1..], ByTime(timeOf))
  {
    InsertedAt(b, o, i, j, ByTime(timeOf));
  }

  /**
    * The line chart's data: the rows sorted by time in place, then the first twenty. The
    * array is left sorted, and the series is the twenty earliest rows (all of them when
    * there are fewer), earliest first.
    */
  method LineChartSeries(data: array<WeatherCrimeRow>, timeOf: string -> int) returns (series: seq<WeatherCrimeRow>)
    modifies data
    ensures data[..] == SortBy(old(data[..]), ByTime(timeOf))
    ensures series == TopBy(old(data[..]), ChartPoints, ByTime(timeOf))
  {
    SortByTime(data, timeOf);
    series := Take(data[..], ChartPoints);
  }
}
