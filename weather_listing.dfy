/**
  * `GET /api/weather`: the weather records, filtered by a date range and a search over the
  * temperature, precipitation and wind-speed texts, newest first.
  */
module WeatherListing {
  import opened Wrappers
  import opened Sequences
  import opened Schema
  import opened Query

  datatype WeatherColumn = Temperature | Precipitation | WindSpeed

  function WeatherText(w: WeatherRecord, c: WeatherColumn): Option<string> {
    match c
    case Temperature => Some(w.temperature)
    case Precipitation => Some(w.precipitation)
    case WindSpeed => Some(w.windSpeed)
  }

  function WeatherDate(w: WeatherRecord): Day {
    w.date
  }

  const SearchColumns: seq<WeatherColumn> := [Temperature, Precipitation, WindSpeed]

  datatype WeatherFilters = WeatherFilters(dateRange: Param, search: Param)

  /** `ORDER BY weather_data.date DESC`. */
  predicate NewestFirst(a: WeatherRecord, b: WeatherRecord) {
    a.date >= b.date
  }

  /** The `.where` calls of the handler, in order. */
  function ListingWheres(f: WeatherFilters, toDay: string -> Day): (w: seq<Cond<WeatherColumn>>)
    ensures |w| <= 2
    ensures w == [] <==> DateRangeBounds(f.dateRange).None? && !Truthy(f.search)
    ensures Truthy(f.search) ==> w[|w| - 1] == AnyLike(SearchColumns, SqlLike.SearchPattern(f.search.value))
  {
    var w := WhereDateRange([], f.dateRange, toDay);
    WhereSearch(w, SearchColumns, f.search)
  }

  /** The handler's filter block. */
  method BuildListingQuery(f: WeatherFilters, toDay: string -> Day) returns (wheres: seq<Cond<WeatherColumn>>)
    ensures wheres == ListingWheres(f, toDay)
  {
    wheres := [];
    if Truthy(f.dateRange) {
      var bounds := DateRangeBounds(f.dateRange);
      if bounds.Some? {
        wheres := wheres + [Between(toDay(bounds.value.0), toDay(bounds.value.1))];
      }
    }
    if Truthy(f.search) {
      wheres := wheres + [AnyLike(SearchColumns, SqlLike.SearchPattern(f.search.value))];
    }
  }

  /** Reference meaning: the date is in range and the term occurs in the temperature, precipitation or wind speed. */
  predicate Selected(rule: WhereRule, f: WeatherFilters, toDay: string -> Day, w: WeatherRecord) {
    match rule
    case Conjoin =>
      && InRange(f.dateRange, toDay, w.date)
      && (Truthy(f.search) ==> SearchHit(f.search.value, [Some(w.temperature), Some(w.precipitation), Some(w.windSpeed)]))
    case LastWins =>
      if Truthy(f.search) then SearchHit(f.search.value, [Some(w.temperature), Some(w.precipitation), Some(w.windSpeed)])
      else InRange(f.dateRange, toDay, w.date)
  }

  lemma {:induction false} FiltersSelect(f: WeatherFilters, toDay: string -> Day, rule: WhereRule, w: WeatherRecord)
    ensures Keeps(ListingWheres(f, toDay), rule, w, WeatherText, WeatherDate) <==> Selected(rule, f, toDay, w)
  {
    var w0: seq<Cond<WeatherColumn>> := [];
    var w1 := WhereDateRange(w0, f.dateRange, toDay);
    NoWhereKeepsAll(rule, w, WeatherText, WeatherDate);
    WhereDateRangeSelects(w0, f.dateRange, toDay, w, WeatherText, WeatherDate);
    WhereSearchSelects(w1, SearchColumns, f.search, w, WeatherText, WeatherDate);
    assert ColumnValues(w, SearchColumns, WeatherText) == [Some(w.temperature), Some(w.precipitation), Some(w.windSpeed)];
  }

  /** The weather records the filters select, each as often as it is stored, newest first. */
  function Weather(db: Database, f: WeatherFilters, toDay: string -> Day, rule: WhereRule): (rows: seq<WeatherRecord>)
    ensures Sorted(rows, NewestFirst)
    ensures forall w :: multiset(rows)[w] == if Selected(rule, f, toDay, w) then multiset(db.weatherData)[w] else 0
  {
    var wh := ListingWheres(f, toDay);
    assert TotalPreorder(NewestFirst);
    assert forall w :: Keeps(wh, rule, w, WeatherText, WeatherDate) <==> Selected(rule, f, toDay, w) by {
      forall w ensures Keeps(wh, rule, w, WeatherText, WeatherDate) <==> Selected(rule, f, toDay, w) {
        FiltersSelect(f, toDay, rule, w);
      }
    }
    SelectOrdered(db.weatherData, w => Keeps(wh, rule, w, WeatherText, WeatherDate), NewestFirst)
  }
}
