/**
  * The crime listing (`GET /api/crimes`), the rows behind the CSV export
  * (`POST /api/export-crimes`) and the dashboard's recent crimes (`GET /api/recent-crimes`):
  * crime reports outer-joined with their location, police reports and officers, filtered,
  * and newest first.
  */
module CrimeListing {
  import opened Wrappers
  import opened Sequences
  import opened Schema
  import opened Query

  /** One row of the crime listing; the outer joins make the location and officer columns optional. */
  datatype CrimeRow = CrimeRow(
    id: string, date: Day, description: string, typeOfCrime: string, arrestStatus: string,
    address: Option<string>, locationId: Option<string>, officerName: Option<string>)

  /** The text columns a crime filter mentions. */
  datatype CrimeColumn = TypeOfCrime | ArrestStatus | Description | CrimeId | Address

  function CrimeText(r: CrimeRow, c: CrimeColumn): Option<string> {
    match c
    case TypeOfCrime => Some(r.typeOfCrime)
    case ArrestStatus => Some(r.arrestStatus)
    case Description => Some(r.description)
    case CrimeId => Some(r.id)
    case Address => r.address
  }

  function CrimeDate(r: CrimeRow): Day {
    r.date
  }

  /** The listing and the export search the description, the crime id and the address. */
  const SearchColumns: seq<CrimeColumn> := [Description, CrimeId, Address]

  const AllTypes: string := "all_types"
  const AllStatuses: string := "all_statuses"

  /** `type`, `status`, `dateRange` and `search`, from the query string or the request body. */
  datatype CrimeFilters = CrimeFilters(crimeType: Param, status: Param, dateRange: Param, search: Param)

  /** A row carries the crime's own columns. */
  predicate RowOfCrime(r: CrimeRow, c: CrimeReport) {
    r.id == c.id && r.date == c.date && r.description == c.description &&
    r.typeOfCrime == c.typeOfCrime && r.arrestStatus == c.arrestStatus
  }

  /** `LEFT JOIN police_officers ON police_reports.officer_id = police_officers.officer_id`. */
  function OfficerName(db: Database, officerId: string): (name: Option<string>)
    ensures name.Some? <==> exists o :: o in db.policeOfficers && o.id == officerId
    ensures name.Some? ==> exists o :: o in db.policeOfficers && o.id == officerId && o.name == name.value
  {
    match FindFirst(db.policeOfficers, (o: PoliceOfficer) => o.id == officerId)
    case Some(o) => Some(o.name)
    case None => None
  }

  /** `LEFT JOIN locations ON crime_reports.location_id = locations.id`. */
  function LocationOf(db: Database, locationId: string): (loc: Option<Location>)
    ensures loc.Some? <==> exists l :: l in db.locations && l.id == locationId
    ensures loc.Some? ==> loc.value in db.locations && loc.value.id == locationId
  {
    FindFirst(db.locations, (l: Location) => l.id == locationId)
  }

  /** The police reports filed for crime `crimeId`. */
  function ReportsFor(db: Database, crimeId: string): seq<PoliceReport> {
    Filter(db.policeReports, (pr: PoliceReport) => pr.crimeId == crimeId)
  }

  /**
    * The location columns of crime `c`'s rows: its location's id and address when a location
    * has that id, and NULL for both otherwise.
    */
  predicate LocationColumns(db: Database, c: CrimeReport, address: Option<string>, locationId: Option<string>) {
    && locationId == (if exists l :: l in db.locations && l.id == c.locationId then Some(c.locationId) else None)
    && address.Some? == locationId.Some?
    && (address.Some? ==> exists l :: l in db.locations && l.id == c.locationId && address == Some(l.address))
  }

  /**
    * The rows one crime contributes to the three outer joins: one per police report filed
    * for it, or a single row without an officer when there is none.
    */
  function JoinCrime(db: Database, c: CrimeReport): (rows: seq<CrimeRow>)
    ensures |rows| == if ReportsFor(db, c.id) == [] then 1 else |ReportsFor(db, c.id)|
    ensures forall i :: 0 <= i < |rows| ==> RowOfCrime(rows[i], c)
    ensures ReportsFor(db, c.id) == [] ==> rows[0].officerName == None
    ensures ReportsFor(db, c.id) != [] ==>
              forall i :: 0 <= i < |rows| ==> rows[i].officerName == OfficerName(db, ReportsFor(db, c.id)[i].officerId)
    ensures forall i :: 0 <= i < |rows| ==> LocationColumns(db, c, rows[i].address, rows[i].locationId)
  {
    var loc := LocationOf(db, c.locationId);
    var address := if loc.Some? then Some(loc.value.address) else None;
    var locationId := if loc.Some? then Some(loc.value.id) else None;
    assert LocationColumns(db, c, address, locationId);
    var reports := ReportsFor(db, c.id);
    if reports == [] then
      [CrimeRow(c.id, c.date, c.description, c.typeOfCrime, c.arrestStatus, address, locationId, None)]
    else
      ReportRows(db, c, reports, address, locationId)
  }

  /** One row of crime `c` per police report, each with the reporting officer's name. */
  function ReportRows(db: Database, c: CrimeReport, reports: seq<PoliceReport>,
                      address: Option<string>, locationId: Option<string>): (rows: seq<CrimeRow>)
    ensures |rows| == |reports|
    ensures forall i :: 0 <= i < |rows| ==>
              && RowOfCrime(rows[i], c) && rows[i].address == address && rows[i].locationId == locationId
              && rows[i].officerName == OfficerName(db, reports[i].officerId)
  {
    seq(|reports|, i requires 0 <= i < |reports| =>
      CrimeRow(c.id, c.date, c.description, c.typeOfCrime, c.arrestStatus, address, locationId,
               OfficerName(db, reports[i].officerId)))
  }

  /** The joined rows of `crimes`, crime by crime. */
  function JoinCrimes(db: Database, crimes: seq<CrimeReport>): (rows: seq<CrimeRow>)
    ensures |rows| >= |crimes|
  {
    if crimes == [] then [] else JoinCrime(db, crimes[0]) + JoinCrimes(db, crimes[1..])
  }

  /** Every joined row carries the columns of one of the crimes. */
  lemma {:induction false} JoinedRowsFromCrimes(db: Database, crimes: seq<CrimeReport>)
    ensures forall r :: r in JoinCrimes(db, crimes) ==> exists c :: c in crimes && RowOfCrime(r, c)
  {
    if crimes != [] {
      var first := JoinCrime(db, crimes[0]);
      var rest := JoinCrimes(db, crimes[1..]);
      assert JoinCrimes(db, crimes) == first + rest;
      JoinedRowsFromCrimes(db, crimes[1..]);
      forall r | r in first + rest ensures exists c :: c in crimes && RowOfCrime(r, c) {
        if r in first {
          var k :| 0 <= k < |first| && first[k] == r;
          assert crimes[0] in crimes && RowOfCrime(r, crimes[0]);
        } else {
          var c :| c in crimes[1..] && RowOfCrime(r, c);
          assert c in crimes;
        }
      }
    }
  }

  /** Every crime has at least one joined row, whether or not a police report was filed for it. */
  lemma {:induction false} EveryCrimeJoined(db: Database, crimes: seq<CrimeReport>)
    ensures forall c :: c in crimes ==> exists r :: r in JoinCrimes(db, crimes) && RowOfCrime(r, c)
  {
    if crimes != [] {
      var first := JoinCrime(db, crimes[0]);
      var rest := JoinCrimes(db, crimes[1..]);
      assert JoinCrimes(db, crimes) == first + rest;
      EveryCrimeJoined(db, crimes[1..]);
      forall c | c in crimes ensures exists r :: r in first + rest && RowOfCrime(r, c) {
        if c == crimes[0] {
          assert first[0] in first + rest && RowOfCrime(first[0], c);
        } else {
          assert c in crimes[1..];
          var r :| r in rest && RowOfCrime(r, c);
          assert r in first + rest;
        }
      }
    }
  }

  /** `crime_reports LEFT JOIN locations LEFT JOIN police_reports LEFT JOIN police_officers`. */
  function CrimeRows(db: Database): seq<CrimeRow> {
    JoinCrimes(db, db.crimeReports)
  }

  /** `ORDER BY crime_reports.date DESC`. */
  predicate NewestFirst(a: CrimeRow, b: CrimeRow) {
    a.date >= b.date
  }

  lemma NewestFirstIsTotal()
    ensures TotalPreorder(NewestFirst)
  {
  }

  /** The `.where` calls of the listing handler, in order. */
  function ListingWheres(f: CrimeFilters, toDay: string -> Day): (w: seq<Cond<CrimeColumn>>)
    ensures |w| <= 4
    ensures w == [] <==> !Applies(f.crimeType, Some(AllTypes)) && !Applies(f.status, Some(AllStatuses)) &&
                         DateRangeBounds(f.dateRange).None? && !Truthy(f.search)
    ensures Truthy(f.search) ==> w[|w| - 1] == AnyLike(SearchColumns, SqlLike.SearchPattern(f.search.value))
  {
    var w := WhereEquals([], TypeOfCrime, f.crimeType, Some(AllTypes));
    var w := WhereEquals(w, ArrestStatus, f.status, Some(AllStatuses));
    var w := WhereDateRange(w, f.dateRange, toDay);
    WhereSearch(w, SearchColumns, f.search)
  }

  /** The `.where` calls of the export handler: the same filters without the sentinel checks. */
  function ExportWheres(f: CrimeFilters, toDay: string -> Day): (w: seq<Cond<CrimeColumn>>)
    ensures |w| <= 4
    ensures w == [] <==> !Truthy(f.crimeType) && !Truthy(f.status) &&
                         DateRangeBounds(f.dateRange).None? && !Truthy(f.search)
    ensures Truthy(f.search) ==> w[|w| - 1] == AnyLike(SearchColumns, SqlLike.SearchPattern(f.search.value))
  {
    var w := WhereEquals([], TypeOfCrime, f.crimeType, None);
    var w := WhereEquals(w, ArrestStatus, f.status, None);
    var w := WhereDateRange(w, f.dateRange, toDay);
    WhereSearch(w, SearchColumns, f.search)
  }

  /** The listing handler's filter block, reassigning the query once per applied filter. */
  method BuildListingQuery(f: CrimeFilters, toDay: string -> Day) returns (wheres: seq<Cond<CrimeColumn>>)
    ensures wheres == ListingWheres(f, toDay)
  {
    wheres := [];
    if Truthy(f.crimeType) && f.crimeType.value != AllTypes {
      wheres := wheres + [Equals(TypeOfCrime, f.crimeType.value)];
    }
    if Truthy(f.status) && f.status.value != AllStatuses {
      wheres := wheres + [Equals(ArrestStatus, f.status.value)];
    }
    if Truthy(f.dateRange) {
      var bounds := DateRangeBounds(f.dateRange);
      if bounds.Some? {
        wheres := wheres + [Between(toDay(bounds.value.0), toDay(bounds.value.1))];
      }
    }
    if Truthy(f.search) {
      wheres := wheres + [AnyLike(SearchColumns, SqlLike.SearchPattern(f.search.value))];
    }
  }

  /** The export handler's filter block: any truthy value filters, sentinel or not. */
  method BuildExportQuery(f: CrimeFilters, toDay: string -> Day) returns (wheres: seq<Cond<CrimeColumn>>)
    ensures wheres == ExportWheres(f, toDay)
  {
    wheres := [];
    if Truthy(f.crimeType) {
      wheres := wheres + [Equals(TypeOfCrime, f.crimeType.value)];
    }
    if Truthy(f.status) {
      wheres := wheres + [Equals(ArrestStatus, f.status.value)];
    }
    if Truthy(f.dateRange) {
      var bounds := DateRangeBounds(f.dateRange);
      if bounds.Some? {
        wheres := wheres + [Between(toDay(bounds.value.0), toDay(bounds.value.1))];
      }
    }
    if Truthy(f.search) {
      wheres := wheres + [AnyLike(SearchColumns, SqlLike.SearchPattern(f.search.value))];
    }
  }

  /**
    * The reference meaning of the filters when every `.where` applies: each applied
    * category filter is an exact match, the date lies in the range, and the search term
    * matches the description, the id or the address.
    */
  predicate AllFiltersHold(f: CrimeFilters, typeSentinel: Option<string>, statusSentinel: Option<string>,
                           toDay: string -> Day, r: CrimeRow) {
    && (Applies(f.crimeType, typeSentinel) ==> r.typeOfCrime == f.crimeType.value)
    && (Applies(f.status, statusSentinel) ==> r.arrestStatus == f.status.value)
    && InRange(f.dateRange, toDay, r.date)
    && (Truthy(f.search) ==> SearchHit(f.search.value, [Some(r.description), Some(r.id), r.address]))
  }

  /** The reference meaning when only the last `.where` call counts: the last applied filter alone. */
  predicate LastFilterHolds(f: CrimeFilters, typeSentinel: Option<string>, statusSentinel: Option<string>,
                            toDay: string -> Day, r: CrimeRow) {
    if Truthy(f.search) then SearchHit(f.search.value, [Some(r.description), Some(r.id), r.address])
    else if DateRangeBounds(f.dateRange).Some? then InRange(f.dateRange, toDay, r.date)
    else if Applies(f.status, statusSentinel) then r.arrestStatus == f.status.value
    else if Applies(f.crimeType, typeSentinel) then r.typeOfCrime == f.crimeType.value
    else true
  }

  predicate Selected(rule: WhereRule, f: CrimeFilters, typeSentinel: Option<string>, statusSentinel: Option<string>,
                     toDay: string -> Day, r: CrimeRow) {
    match rule
    case Conjoin => AllFiltersHold(f, typeSentinel, statusSentinel, toDay, r)
    case LastWins => LastFilterHolds(f, typeSentinel, statusSentinel, toDay, r)
  }

  /** The searched columns of a row: its description, its id and its address. */
  lemma SearchedValues(r: CrimeRow)
    ensures ColumnValues(r, SearchColumns, CrimeText) == [Some(r.description), Some(r.id), r.address]
  {
  }

  /** Under `Conjoin`, the handlers' filters select exactly the rows every applied filter accepts. */
  lemma ConjoinedFiltersSelect(f: CrimeFilters, typeSentinel: Option<string>, statusSentinel: Option<string>,
                               toDay: string -> Day, r: CrimeRow)
    ensures var w := WhereSearch(WhereDateRange(WhereEquals(WhereEquals([], TypeOfCrime, f.crimeType, typeSentinel),
                                   ArrestStatus, f.status, statusSentinel), f.dateRange, toDay), SearchColumns, f.search);
      Keeps(w, Conjoin, r, CrimeText, CrimeDate) <==> AllFiltersHold(f, typeSentinel, statusSentinel, toDay, r)
  {
    var w0: seq<Cond<CrimeColumn>> := [];
    var w1 := WhereEquals(w0, TypeOfCrime, f.crimeType, typeSentinel);
    var w2 := WhereEquals(w1, ArrestStatus, f.status, statusSentinel);
    var w3 := WhereDateRange(w2, f.dateRange, toDay);
    NoWhereKeepsAll(Conjoin, r, CrimeText, CrimeDate);
    WhereEqualsSelects(w0, TypeOfCrime, f.crimeType, typeSentinel, r, CrimeText, CrimeDate);
    WhereEqualsSelects(w1, ArrestStatus, f.status, statusSentinel, r, CrimeText, CrimeDate);
    WhereDateRangeSelects(w2, f.dateRange, toDay, r, CrimeText, CrimeDate);
    WhereSearchSelects(w3, SearchColumns, f.search, r, CrimeText, CrimeDate);
    SearchedValues(r);
  }

  /** Under `LastWins`, the handlers' filters select exactly the rows the last applied filter accepts. */
  lemma LastFilterSelects(f: CrimeFilters, typeSentinel: Option<string>, statusSentinel: Option<string>,
                          toDay: string -> Day, r: CrimeRow)
    ensures var w := WhereSearch(WhereDateRange(WhereEquals(WhereEquals([], TypeOfCrime, f.crimeType, typeSentinel),
                                   ArrestStatus, f.status, statusSentinel), f.dateRange, toDay), SearchColumns, f.search);
      Keeps(w, LastWins, r, CrimeText, CrimeDate) <==> LastFilterHolds(f, typeSentinel, statusSentinel, toDay, r)
  {
    var w0: seq<Cond<CrimeColumn>> := [];
    var w1 := WhereEquals(w0, TypeOfCrime, f.crimeType, typeSentinel);
    var w2 := WhereEquals(w1, ArrestStatus, f.status, statusSentinel);
    var w3 := WhereDateRange(w2, f.dateRange, toDay);
    NoWhereKeepsAll(LastWins, r, CrimeText, CrimeDate);
    WhereEqualsSelects(w0, TypeOfCrime, f.crimeType, typeSentinel, r, CrimeText, CrimeDate);
    WhereEqualsSelects(w1, ArrestStatus, f.status, statusSentinel, r, CrimeText, CrimeDate);
    WhereDateRangeSelects(w2, f.dateRange, toDay, r, CrimeText, CrimeDate);
    WhereSearchSelects(w3, SearchColumns, f.search, r, CrimeText, CrimeDate);
    SearchedValues(r);
  }

  /** The filters the handlers build select exactly the rows the reference meaning describes, under either rule. */
  lemma FiltersSelect(f: CrimeFilters, typeSentinel: Option<string>, statusSentinel: Option<string>,
                      toDay: string -> Day, rule: WhereRule, r: CrimeRow)
    ensures var w := WhereSearch(WhereDateRange(WhereEquals(WhereEquals([], TypeOfCrime, f.crimeType, typeSentinel),
                                   ArrestStatus, f.status, statusSentinel), f.dateRange, toDay), SearchColumns, f.search);
      Keeps(w, rule, r, CrimeText, CrimeDate) <==> Selected(rule, f, typeSentinel, statusSentinel, toDay, r)
  {
    match rule
    case Conjoin => ConjoinedFiltersSelect(f, typeSentinel, statusSentinel, toDay, r);
    case LastWins => LastFilterSelects(f, typeSentinel, statusSentinel, toDay, r);
  }

  /**
    * `GET /api/crimes`: the joined rows the filters select, each as often as the joins
    * produce it, newest first.
    */
  function Crimes(db: Database, f: CrimeFilters, toDay: string -> Day, rule: WhereRule): (rows: seq<CrimeRow>)
    ensures Sorted(rows, NewestFirst)
    ensures forall r :: multiset(rows)[r] == if Selected(rule, f, Some(AllTypes), Some(AllStatuses), toDay, r) then multiset(CrimeRows(db))[r] else 0
  {
    var w := ListingWheres(f, toDay);
    NewestFirstIsTotal();
    assert forall r :: Keeps(w, rule, r, CrimeText, CrimeDate) <==> Selected(rule, f, Some(AllTypes), Some(AllStatuses), toDay, r) by {
      forall r ensures Keeps(w, rule, r, CrimeText, CrimeDate) <==> Selected(rule, f, Some(AllTypes), Some(AllStatuses), toDay, r) {
        FiltersSelect(f, Some(AllTypes), Some(AllStatuses), toDay, rule, r);
      }
    }
    SelectOrdered(CrimeRows(db), r => Keeps(w, rule, r, CrimeText, CrimeDate), NewestFirst)
  }

  /** The rows of `POST /api/export-crimes`, before they are written as CSV. */
  function ExportRows(db: Database, f: CrimeFilters, toDay: string -> Day, rule: WhereRule): (rows: seq<CrimeRow>)
    ensures Sorted(rows, NewestFirst)
    ensures forall r :: multiset(rows)[r] == if Selected(rule, f, None, None, toDay, r) then multiset(CrimeRows(db))[r] else 0
  {
    var w := ExportWheres(f, toDay);
    NewestFirstIsTotal();
    assert forall r :: Keeps(w, rule, r, CrimeText, CrimeDate) <==> Selected(rule, f, None, None, toDay, r) by {
      forall r ensures Keeps(w, rule, r, CrimeText, CrimeDate) <==> Selected(rule, f, None, None, toDay, r) {
        FiltersSelect(f, None, None, toDay, rule, r);
      }
    }
    SelectOrdered(CrimeRows(db), r => Keeps(w, rule, r, CrimeText, CrimeDate), NewestFirst)
  }

  /**
    * Sent as the listing's filters, a sentinel value is no filter at all; sent to the export,
    * it is a type or status no crime has, so the export is empty.
    */
  lemma {:induction false} ExportTakesSentinelLiterally(db: Database, f: CrimeFilters, toDay: string -> Day)
    requires f.crimeType == Some(AllTypes)
    requires forall c :: c in db.crimeReports ==> c.typeOfCrime != AllTypes
    ensures ExportRows(db, f, toDay, Conjoin) == []
  {
    var rows := ExportRows(db, f, toDay, Conjoin);
    forall r ensures multiset(rows)[r] == 0 {
      if r in CrimeRows(db) {
        JoinedRowsFromCrimes(db, db.crimeReports);
        var c :| c in db.crimeReports && RowOfCrime(r, c);
        assert !AllFiltersHold(f, None, None, toDay, r);
      }
    }
    assert multiset(rows) == multiset{};
  }

  /** One row of `GET /api/recent-crimes`. */
  datatype RecentCrime = RecentCrime(id: string, date: Day, description: string, typeOfCrime: string,
                                     arrestStatus: string, address: Option<string>)

  function RecentRow(db: Database, c: CrimeReport): (r: RecentCrime)
    ensures r.id == c.id && r.date == c.date && r.description == c.description
    ensures r.typeOfCrime == c.typeOfCrime && r.arrestStatus == c.arrestStatus
    ensures r.address.Some? <==> exists l :: l in db.locations && l.id == c.locationId
    ensures r.address.Some? ==> exists l :: l in db.locations && l.id == c.locationId && r.address.value == l.address
  {
    var loc := LocationOf(db, c.locationId);
    RecentCrime(c.id, c.date, c.description, c.typeOfCrime, c.arrestStatus,
                if loc.Some? then Some(loc.value.address) else None)
  }

  function RecentRows(db: Database, crimes: seq<CrimeReport>): (rows: seq<RecentCrime>)
    ensures |rows| == |crimes| && forall i :: 0 <= i < |crimes| ==> rows[i] == RecentRow(db, crimes[i])
  {
    seq(|crimes|, i requires 0 <= i < |crimes| => RecentRow(db, crimes[i]))
  }

  predicate RecentNewestFirst(a: RecentCrime, b: RecentCrime) {
    a.date >= b.date
  }

  /** The number of rows the dashboard's recent-crimes endpoint returns at most. */
  const RecentLimit: nat := 10

  /**
    * `crime_reports LEFT JOIN locations ORDER BY date DESC LIMIT 10`: at most ten crimes,
    * newest first, and no crime left out is newer than one returned.
    */
  function RecentCrimes(db: Database): (rows: seq<RecentCrime>)
    ensures |rows| == if |db.crimeReports| < RecentLimit then |db.crimeReports| else RecentLimit
    ensures Sorted(rows, RecentNewestFirst)
    ensures exists rest: seq<RecentCrime> ::
              && multiset(rows) + multiset(rest) == multiset(RecentRows(db, db.crimeReports))
              && forall i, j :: 0 <= i < |rows| && 0 <= j < |rest| ==> RecentNewestFirst(rows[i], rest[j])
  {
    assert TotalPreorder(RecentNewestFirst);
    TopBy(RecentRows(db, db.crimeReports), RecentLimit, RecentNewestFirst)
  }

}
