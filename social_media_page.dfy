/**
  * The Social Media page: its filter and paging state, the query its state sends, and the
  * month-by-sentiment pivot that turns `postsOverTime` into the points of the line chart.
  */
module SocialMediaPage {
  import opened Wrappers
  import opened Grouping
  import opened Schema
  import opened Query
  import opened Paging
  import opened SocialMediaListing

  const PerPage: nat := 10

  /** The filters a page in its initial state sends: both sentinels, no range, no search. */
  const DefaultFilters: PostFilters := PostFilters(Some(AllSentiments), Some(AllLocations), Some(""), Some(""))

  /** The default filters select every post, whichever way the `.where` calls combine. */
  lemma DefaultFiltersSelectAll(db: Database, toDay: string -> Day, rule: WhereRule)
    ensures multiset(Posts(db, DefaultFilters, toDay, rule)) == multiset(db.socialMedia)
  {
    var rows := Posts(db, DefaultFilters, toDay, rule);
    forall p ensures multiset(rows)[p] == multiset(db.socialMedia)[p] {
      assert Selected(rule, DefaultFilters, toDay, p);
    }
  }

  /** The component's `useState` fields. */
  class SocialMediaState {
    var sentimentFilter: string
    var locationFilter: string
    var dateRangeInput: string
    var dateRange: string
    var searchInput: string
    var searchQuery: string
    var currentPage: int

    /** A page can be on page 0 (see `ClickNext`), never below. */
    predicate Valid()
      reads this
    {
      currentPage >= 0
    }

    /** The posts query key: every filter is sent as it stands, sentinels included. */
    function Filters(): PostFilters
      reads this
    {
      PostFilters(Some(sentimentFilter), Some(locationFilter), Some(dateRange), Some(searchQuery))
    }

    constructor ()
      ensures Valid() && Filters() == DefaultFilters && currentPage == 1
      ensures dateRangeInput == "" && searchInput == ""
    {
      sentimentFilter := AllSentiments;
      locationFilter := AllLocations;
      dateRangeInput := "";
      dateRange := "";
      searchInput := "";
      searchQuery := "";
      currentPage := 1;
    }

    /** The sentiment select; the page number is kept. */
    method SelectSentiment(v: string)
      modifies this
      ensures sentimentFilter == v
      ensures locationFilter == old(locationFilter) && dateRange == old(dateRange) && searchQuery == old(searchQuery)
      ensures dateRangeInput == old(dateRangeInput) && searchInput == old(searchInput) && currentPage == old(currentPage)
    {
      sentimentFilter := v;
    }

    /** The location select; the page number is kept. */
    method SelectLocation(v: string)
      modifies this
      ensures locationFilter == v
      ensures sentimentFilter == old(sentimentFilter) && dateRange == old(dateRange) && searchQuery == old(searchQuery)
      ensures dateRangeInput == old(dateRangeInput) && searchInput == old(searchInput) && currentPage == old(currentPage)
    {
      locationFilter := v;
    }

    /** Typing in the date-range box changes only the box; the query waits for `ApplyDateRange`. */
    method TypeDateRange(v: string)
      modifies this
      ensures dateRangeInput == v && Filters() == old(Filters())
      ensures searchInput == old(searchInput) && currentPage == old(currentPage)
    {
      dateRangeInput := v;
    }

    /** `handleDateRange`: the typed range becomes the query's range. */
    method ApplyDateRange()
      modifies this
      ensures Filters() == old(Filters()).(dateRange := Some(old(dateRangeInput)))
      ensures dateRangeInput == old(dateRangeInput) && searchInput == old(searchInput) && currentPage == old(currentPage)
    {
      dateRange := dateRangeInput;
    }

    /** Typing in the search box changes only the box; the query waits for `ApplySearch`. */
    method TypeSearch(v: string)
      modifies this
      ensures searchInput == v && Filters() == old(Filters())
      ensures dateRangeInput == old(dateRangeInput) && currentPage == old(currentPage)
    {
      searchInput := v;
    }

    /** `handleSearch`: the typed term becomes the query's search. */
    method ApplySearch()
      modifies this
      ensures Filters() == old(Filters()).(search := Some(old(searchInput)))
      ensures dateRangeInput == old(dateRangeInput) && searchInput == old(searchInput) && currentPage == old(currentPage)
    {
      searchQuery := searchInput;
    }

    /** Reset Filters: every filter and input back to its default; the page number is left as it was. */
    method ResetFilters()
      modifies this
      ensures Filters() == DefaultFilters && dateRangeInput == "" && searchInput == ""
      ensures currentPage == old(currentPage)
    {
      sentimentFilter := AllSentiments;
      locationFilter := AllLocations;
      dateRangeInput := "";
      dateRange := "";
      searchInput := "";
      searchQuery := "";
    }

    /** The posts of the current page. */
    function Visible(posts: seq<SocialMediaPost>): seq<SocialMediaPost>
      reads this
    {
      PageItems(posts, currentPage, PerPage)
    }

    /** The previous button: nothing when disabled, else one page back and at least page 1. */
    method ClickPrev()
      requires Valid()
      modifies this
      ensures Valid() && currentPage == Prev(old(currentPage)) && Filters() == old(Filters())
      ensures sentimentFilter == old(sentimentFilter) && locationFilter == old(locationFilter)
      ensures dateRangeInput == old(dateRangeInput) && dateRange == old(dateRange)
      ensures searchInput == old(searchInput) && searchQuery == old(searchQuery)
    {
      if !PrevDisabled(currentPage) {
        currentPage := Prev(currentPage);
      }
    }

    /**
      * The next button with `totalRecords` posts loaded: nothing when disabled, else one page
      * on and at most the last page. With no posts there is no last page, and page 1 goes to 0.
      */
    method ClickNext(totalRecords: nat)
      requires Valid()
      modifies this
      ensures Valid() && currentPage == Next(old(currentPage), TotalPages(totalRecords, PerPage))
      ensures Filters() == old(Filters())
      ensures totalRecords == 0 && old(currentPage) == 1 ==> currentPage == 0
      ensures sentimentFilter == old(sentimentFilter) && locationFilter == old(locationFilter)
      ensures dateRangeInput == old(dateRangeInput) && dateRange == old(dateRange)
      ensures searchInput == old(searchInput) && searchQuery == old(searchQuery)
    {
      var totalPages := TotalPages(totalRecords, PerPage);
      if !NextDisabled(currentPage, totalPages) {
        currentPage := Next(currentPage, totalPages);
      }
    }

    /** A button of the page-button row. */
    method ClickPageButton(totalRecords: nat, i: nat)
      requires Valid() && i < |Window(currentPage, TotalPages(totalRecords, PerPage))|
      modifies this
      ensures Valid() && currentPage == old(Window(currentPage, TotalPages(totalRecords, PerPage)))[i]
      ensures Filters() == old(Filters())
      ensures sentimentFilter == old(sentimentFilter) && locationFilter == old(locationFilter)
      ensures dateRangeInput == old(dateRangeInput) && dateRange == old(dateRange)
      ensures searchInput == old(searchInput) && searchQuery == old(searchQuery)
    {
      var w := Window(currentPage, TotalPages(totalRecords, PerPage));
      assert w[i] in w;
      assert w[i] >= 0 by {
        var full := FullWindow(currentPage, TotalPages(totalRecords, PerPage));
        var k :| 0 <= k < |full| && full[k] == w[i];
      }
      currentPage := w[i];
    }
  }

  /** One row of `postsOverTime` as the page receives it: the month's label, a sentiment and a count. */
  datatype SeriesRow = SeriesRow(month: string, sentiment: string, count: int)

  /** One point of the line chart: a month and a count per sentiment class. */
  datatype MonthPoint = MonthPoint(month: string, positive: int, negative: int, neutral: int)

  /** The three counters of a point. */
  datatype Slot = PositiveSlot | NegativeSlot | NeutralSlot

  /** `Positive` and `Negative` have their own counters; every other sentiment is counted as neutral. */
  function SlotOf(sentiment: string): Slot {
    if sentiment == "Positive" then PositiveSlot
    else if sentiment == "Negative" then NegativeSlot
    else NeutralSlot
  }

  function Get(p: MonthPoint, s: Slot): int {
    match s
    case PositiveSlot => p.positive
    case NegativeSlot => p.negative
    case NeutralSlot => p.neutral
  }

  /** `point.positive = count` (or `negative`, `neutral`): one counter overwritten. */
  function SetSlot(p: MonthPoint, s: Slot, count: int): (q: MonthPoint)
    ensures q.month == p.month && Get(q, s) == count
    ensures forall t :: t != s ==> Get(q, t) == Get(p, t)
  {
    match s
    case PositiveSlot => p.(positive := count)
    case NegativeSlot => p.(negative := count)
    case NeutralSlot => p.(neutral := count)
  }

  /** `newItem`: the row's month with all counters 0, then the row's counter set. */
  function NewPoint(r: SeriesRow): (p: MonthPoint)
    ensures p.month == r.month
    ensures forall s :: Get(p, s) == if s == SlotOf(r.sentiment) then r.count else 0
  {
    SetSlot(MonthPoint(r.month, 0, 0, 0), SlotOf(r.sentiment), r.count)
  }

  /** The months of a sequence of points or rows, in order. */
  function MonthsOf<T>(s: seq<T>, month: T -> string): (ms: seq<string>)
    ensures |ms| == |s| && forall i :: 0 <= i < |s| ==> ms[i] == month(s[i])
  {
    seq(|s|, i requires 0 <= i < |s| => month(s[i]))
  }

  function PointMonth(p: MonthPoint): string {
    p.month
  }

  function RowMonth(r: SeriesRow): string {
    r.month
  }

  /** `acc.find(item => item.month === month)`, as the position of the first such point. */
  function FindMonth(acc: seq<MonthPoint>, month: string): (r: Option<nat>)
    ensures r.None? <==> forall j :: 0 <= j < |acc| ==> acc[j].month != month
    ensures r.Some? ==> r.value < |acc| && acc[r.value].month == month &&
                        forall j :: 0 <= j < r.value ==> acc[j].month != month
  {
    if acc == [] then None
    else if acc[0].month == month then Some(0)
    else
      match FindMonth(acc[1..], month)
      case None => None
      case Some(i) => Some(i + 1)
  }

  /** One step of the `reduce`: overwrite the counter of the month's point, or append a new point. */
  function Step(acc: seq<MonthPoint>, r: SeriesRow): seq<MonthPoint> {
    match FindMonth(acc, r.month)
    case Some(i) => acc[i := SetSlot(acc[i], SlotOf(r.sentiment), r.count)]
    case None => acc + [NewPoint(r)]
  }

  /** The `reduce` over the rows, from an empty accumulator. */
  function Pivot(rows: seq<SeriesRow>): (acc: seq<MonthPoint>)
    ensures |acc| <= |rows|
  {
    if rows == [] then [] else Step(Pivot(rows[..|rows| - 1]), rows[|rows| - 1])
  }

  /** `acc.find(...)` as a linear scan. */
  method FindMonthIndex(acc: seq<MonthPoint>, month: string) returns (r: Option<nat>)
    ensures r == FindMonth(acc, month)
  {
    var i := 0;
    while i < |acc|
      invariant 0 <= i <= |acc|
      invariant forall j :: 0 <= j < i ==> acc[j].month != month
    {
      if acc[i].month == month {
        return Some(i);
      }
      i := i + 1;
    }
    return None;
  }

  /** `groupedTimeSeriesData`: the rows folded into one point per month. */
  method GroupTimeSeries(rows: seq<SeriesRow>) returns (acc: seq<MonthPoint>)
    ensures acc == Pivot(rows)
  {
    acc := [];
    for k := 0 to |rows|
      invariant acc == Pivot(rows[..k])
    {
      assert rows[..k + 1][..k] == rows[..k];
      var curr := rows[k];
      var existing := FindMonthIndex(acc, curr.month);
      if existing.Some? {
        acc := acc[existing.value := SetSlot(acc[existing.value], SlotOf(curr.sentiment), curr.count)];
      } else {
        acc := acc + [NewPoint(curr)];
      }
    }
    assert rows[..|rows|] == rows;
  }

  /** The count of the last row for `month` whose sentiment falls in `slot`, or 0 when there is none. */
  function LastCount(rows: seq<SeriesRow>, month: string, slot: Slot): int {
    if rows == [] then 0
    else
      var r := rows[|rows| - 1];
      if r.month == month && SlotOf(r.sentiment) == slot then r.count
      else LastCount(rows[..|rows| - 1], month, slot)
  }

  /** A counter no row reaches stays 0. */
  lemma {:induction false} LastCountAbsent(rows: seq<SeriesRow>, month: string, slot: Slot)
    requires forall r :: r in rows ==> r.month != month || SlotOf(r.sentiment) != slot
    ensures LastCount(rows, month, slot) == 0
  {
    if rows != [] {
      assert rows[|rows| - 1] in rows;
      assert forall r :: r in rows[..|rows| - 1] ==> r in rows;
      LastCountAbsent(rows[..|rows| - 1], month, slot);
    }
  }

  /**
    * The chart has one point per month that occurs, in the order of the month's first row;
    * so no month appears twice.
    */
  lemma {:induction false} PivotMonths(rows: seq<SeriesRow>)
    ensures MonthsOf(Pivot(rows), PointMonth) == Dedup(MonthsOf(rows, RowMonth))
  {
    if rows != [] {
      var p := rows[..|rows| - 1];
      var r := rows[|rows| - 1];
      assert rows == p + [r];
      PivotMonths(p);
      MonthsOfAppend(p, r, RowMonth);
      DedupAppend(MonthsOf(p, RowMonth), r.month);
      StepMonths(Pivot(p), r);
    }
  }

  lemma MonthsOfAppend<T>(s: seq<T>, x: T, month: T -> string)
    ensures MonthsOf(s + [x], month) == MonthsOf(s, month) + [month(x)]
  {
  }

  /** A step adds the row's month at the end when no point has it yet, and keeps the months otherwise. */
  lemma StepMonths(acc: seq<MonthPoint>, r: SeriesRow)
    ensures MonthsOf(Step(acc, r), PointMonth) ==
            if r.month in MonthsOf(acc, PointMonth) then MonthsOf(acc, PointMonth) else MonthsOf(acc, PointMonth) + [r.month]
  {
    var ms := MonthsOf(acc, PointMonth);
    match FindMonth(acc, r.month)
    case Some(i) => {
      assert ms[i] == r.month;
    }
    case None => {
      assert r.month !in ms;
      MonthsOfAppend(acc, NewPoint(r), PointMonth);
    }
  }

  /**
    * Each counter of a point holds the count of the LAST row for that month and sentiment
    * class: a later row overwrites an earlier one rather than adding to it, every sentiment
    * other than Positive and Negative lands in `neutral`, and a counter without a row is 0.
    */
  lemma {:induction false} PivotCounts(rows: seq<SeriesRow>)
    ensures forall i, s :: 0 <= i < |Pivot(rows)| ==> Get(Pivot(rows)[i], s) == LastCount(rows, Pivot(rows)[i].month, s)
  {
    if rows != [] {
      var p := rows[..|rows| - 1];
      var r := rows[|rows| - 1];
      PivotCounts(p);
      PivotMonths(p);
      var acc := Pivot(p);
      assert Distinct(MonthsOf(acc, PointMonth));
      match FindMonth(acc, r.month)
      case Some(k) => {
        forall i, s | 0 <= i < |Pivot(rows)| ensures Get(Pivot(rows)[i], s) == LastCount(rows, Pivot(rows)[i].month, s) {
          if i != k {
            assert MonthsOf(acc, PointMonth)[i] != MonthsOf(acc, PointMonth)[k];
          }
        }
      }
      case None => {
        forall s ensures LastCount(p, r.month, s) == 0 {
          forall x | x in p ensures x.month != r.month {
            var j :| 0 <= j < |p| && p[j] == x;
            assert MonthsOf(p, RowMonth)[j] in Dedup(MonthsOf(p, RowMonth));
          }
          LastCountAbsent(p, r.month, s);
        }
      }
    }
  }

  /** Two rows for the same month and sentiment: the point keeps the second count, not the sum. */
  lemma LaterRowOverwrites()
    ensures Pivot([SeriesRow("Jan 2024", "Positive", 3), SeriesRow("Jan 2024", "Positive", 5)]) ==
            [MonthPoint("Jan 2024", 5, 0, 0)]
  {
    var rows := [SeriesRow("Jan 2024", "Positive", 3), SeriesRow("Jan 2024", "Positive", 5)];
    assert rows[..1] == [rows[0]];
    assert [rows[0]][..0] == [];
  }
}
