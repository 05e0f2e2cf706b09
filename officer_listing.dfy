/**
  * `GET /api/officers`: every officer with the number of police reports filed by them
  * (NULL when there are none), filtered by position, assigned area and a search over name
  * and id, in order of name; and the top-officers part of `GET /api/officer-stats`.
  */
module OfficerListing {
  import opened Wrappers
  import opened Text
  import opened Sequences
  import opened Grouping
  import opened Schema
  import opened Query

  datatype OfficerRow = OfficerRow(
    id: string, name: string, position: string, assignedArea: string, caseCount: Option<nat>)

  datatype OfficerColumn = Position | AssignedArea | OfficerName | OfficerId

  function OfficerText(r: OfficerRow, c: OfficerColumn): Option<string> {
    match c
    case Position => Some(r.position)
    case AssignedArea => Some(r.assignedArea)
    case OfficerName => Some(r.name)
    case OfficerId => Some(r.id)
  }

  /** The officers table has no date column; no officer filter reads it. */
  function NoDate(r: OfficerRow): Day {
    0
  }

  const SearchColumns: seq<OfficerColumn> := [OfficerName, OfficerId]

  const AllPositions: string := "all_positions"
  const AllAreas: string := "all_areas"

  datatype OfficerFilters = OfficerFilters(position: Param, area: Param, search: Param)

  /** The officer id of every police report, the keys of the `case_counts` subquery. */
  function ReportOfficerIds(db: Database): (ids: seq<string>)
    ensures |ids| == |db.policeReports| && forall i :: 0 <= i < |ids| ==> ids[i] == db.policeReports[i].officerId
  {
    seq(|db.policeReports|, i requires 0 <= i < |db.policeReports| => db.policeReports[i].officerId)
  }

  /** `police_officers LEFT JOIN case_counts`, one row per officer. */
  function OfficerRows(db: Database): (rows: seq<OfficerRow>)
    ensures |rows| == |db.policeOfficers|
    ensures forall i :: 0 <= i < |rows| ==>
      var o := db.policeOfficers[i];
      var n := Count(ReportOfficerIds(db), o.id);
      rows[i] == OfficerRow(o.id, o.name, o.position, o.assignedArea, if n == 0 then None else Some(n))
  {
    seq(|db.policeOfficers|, i requires 0 <= i < |db.policeOfficers| =>
      var o := db.policeOfficers[i];
      OfficerRow(o.id, o.name, o.position, o.assignedArea, CountOf(ReportOfficerIds(db), o.id)))
  }

  /** `ORDER BY police_officers.name`. */
  predicate ByName(a: OfficerRow, b: OfficerRow) {
    StrLe(a.name, b.name)
  }

  lemma ByNameIsTotal()
    ensures TotalPreorder(ByName)
  {
    forall a: OfficerRow, b: OfficerRow ensures ByName(a, b) || ByName(b, a) {
      StrLeTotal(a.name, b.name);
    }
    forall a: OfficerRow, b: OfficerRow, c: OfficerRow | ByName(a, b) && ByName(b, c) ensures ByName(a, c) {
      StrLeTransitive(a.name, b.name, c.name);
    }
  }

  /** The `.where` calls of the handler, in order. */
  function ListingWheres(f: OfficerFilters): (w: seq<Cond<OfficerColumn>>)
    ensures |w| <= 3
    ensures w == [] <==> !Applies(f.position, Some(AllPositions)) && !Applies(f.area, Some(AllAreas)) &&
                         !Truthy(f.search)
    ensures Truthy(f.search) ==> w[|w| - 1] == AnyLike(SearchColumns, SqlLike.SearchPattern(f.search.value))
  {
    var w := WhereEquals([], Position, f.position, Some(AllPositions));
    var w := WhereEquals(w, AssignedArea, f.area, Some(AllAreas));
    WhereSearch(w, SearchColumns, f.search)
  }

  /** The handler's filter block. */
  method BuildListingQuery(f: OfficerFilters) returns (wheres: seq<Cond<OfficerColumn>>)
    ensures wheres == ListingWheres(f)
  {
    wheres := [];
    if Truthy(f.position) && f.position.value != AllPositions {
      wheres := wheres + [Equals(Position, f.position.value)];
    }
    if Truthy(f.area) && f.area.value != AllAreas {
      wheres := wheres + [Equals(AssignedArea, f.area.value)];
    }
    if Truthy(f.search) {
      wheres := wheres + [AnyLike(SearchColumns, SqlLike.SearchPattern(f.search.value))];
    }
  }

  /** Reference meaning: position and area match when chosen, and the search hits the name or the id. */
  predicate Selected(rule: WhereRule, f: OfficerFilters, r: OfficerRow) {
    match rule
    case Conjoin =>
      && (Applies(f.position, Some(AllPositions)) ==> r.position == f.position.value)
      && (Applies(f.area, Some(AllAreas)) ==> r.assignedArea == f.area.value)
      && (Truthy(f.search) ==> SearchHit(f.search.value, [Some(r.name), Some(r.id)]))
    case LastWins =>
      if Truthy(f.search) then SearchHit(f.search.value, [Some(r.name), Some(r.id)])
      else if Applies(f.area, Some(AllAreas)) then r.assignedArea == f.area.value
      else Applies(f.position, Some(AllPositions)) ==> r.position == f.position.value
  }

  lemma {:induction false} FiltersSelect(f: OfficerFilters, rule: WhereRule, r: OfficerRow)
    ensures Keeps(ListingWheres(f), rule, r, OfficerText, NoDate) <==> Selected(rule, f, r)
  {
    var w0: seq<Cond<OfficerColumn>> := [];
    var w1 := WhereEquals(w0, Position, f.position, Some(AllPositions));
    var w2 := WhereEquals(w1, AssignedArea, f.area, Some(AllAreas));
    NoWhereKeepsAll(rule, r, OfficerText, NoDate);
    WhereEqualsSelects(w0, Position, f.position, Some(AllPositions), r, OfficerText, NoDate);
    WhereEqualsSelects(w1, AssignedArea, f.area, Some(AllAreas), r, OfficerText, NoDate);
    WhereSearchSelects(w2, SearchColumns, f.search, r, OfficerText, NoDate);
    assert ColumnValues(r, SearchColumns, OfficerText) == [Some(r.name), Some(r.id)];
  }

  /** The officers the filters select, each with their case count, in order of name. */
  function Officers(db: Database, f: OfficerFilters, rule: WhereRule): (rows: seq<OfficerRow>)
    ensures Sorted(rows, ByName)
    ensures forall r :: multiset(rows)[r] == if Selected(rule, f, r) then multiset(OfficerRows(db))[r] else 0
  {
    var w := ListingWheres(f);
    ByNameIsTotal();
    assert forall r :: Keeps(w, rule, r, OfficerText, NoDate) <==> Selected(rule, f, r) by {
      forall r ensures Keeps(w, rule, r, OfficerText, NoDate) <==> Selected(rule, f, r) {
        FiltersSelect(f, rule, r);
      }
    }
    SelectOrdered(OfficerRows(db), r => Keeps(w, rule, r, OfficerText, NoDate), ByName)
  }

  /** One entry of `topOfficers`: `COUNT(police_reports.report_id)` counts no NULLs, so an officer without reports has 0. */
  datatype OfficerCases = OfficerCases(id: string, name: string, count: nat)

  function OfficerCaseRows(db: Database): (rows: seq<OfficerCases>)
    ensures |rows| == |db.policeOfficers|
    ensures forall i :: 0 <= i < |rows| ==>
      rows[i] == OfficerCases(db.policeOfficers[i].id, db.policeOfficers[i].name,
                              Count(ReportOfficerIds(db), db.policeOfficers[i].id))
  {
    seq(|db.policeOfficers|, i requires 0 <= i < |db.policeOfficers| =>
      OfficerCases(db.policeOfficers[i].id, db.policeOfficers[i].name, Count(ReportOfficerIds(db), db.policeOfficers[i].id)))
  }

  predicate MostCases(a: OfficerCases, b: OfficerCases) {
    a.count >= b.count
  }

  const TopOfficerLimit: nat := 10

  /**
    * `topOfficers`: officers grouped with their reports, most cases first, at most ten; no
    * officer left out has more cases than one returned.
    */
  function TopOfficers(db: Database): (rows: seq<OfficerCases>)
    ensures |rows| == if |db.policeOfficers| < TopOfficerLimit then |db.policeOfficers| else TopOfficerLimit
    ensures Sorted(rows, MostCases)
    ensures exists rest: seq<OfficerCases> ::
              && multiset(rows) + multiset(rest) == multiset(OfficerCaseRows(db))
              && forall i, j :: 0 <= i < |rows| && 0 <= j < |rest| ==> MostCases(rows[i], rest[j])
  {
    assert TotalPreorder(MostCases);
    TopBy(OfficerCaseRows(db), TopOfficerLimit, MostCases)
  }

}
