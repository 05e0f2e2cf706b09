/**
  * `GET /api/locations`: every location with the number of crimes reported there (NULL
  * when there are none), filtered by address type and a search over address and id, in
  * order of location id.
  */
module LocationListing {
  import opened Wrappers
  import opened Text
  import opened Sequences
  import opened Grouping
  import opened Schema
  import opened Query

  datatype LocationRow = LocationRow(
    id: string, address: string, geolocation: string, typeOfAddress: string, crimeCount: Option<nat>)

  datatype LocationColumn = TypeOfAddress | LocationAddress | LocationId

  function LocationText(r: LocationRow, c: LocationColumn): Option<string> {
    match c
    case TypeOfAddress => Some(r.typeOfAddress)
    case LocationAddress => Some(r.address)
    case LocationId => Some(r.id)
  }

  /** The locations table has no date column; no location filter reads it. */
  function NoDate(r: LocationRow): Day {
    0
  }

  const SearchColumns: seq<LocationColumn> := [LocationAddress, LocationId]

  const AllTypes: string := "all_types"

  datatype LocationFilters = LocationFilters(addressType: Param, search: Param)

  /** The location id of every crime, the keys of the `crime_counts` subquery. */
  function CrimeLocationIds(db: Database): (ids: seq<string>)
    ensures |ids| == |db.crimeReports| && forall i :: 0 <= i < |ids| ==> ids[i] == db.crimeReports[i].locationId
  {
    seq(|db.crimeReports|, i requires 0 <= i < |db.crimeReports| => db.crimeReports[i].locationId)
  }

  /** `locations LEFT JOIN crime_counts`, one row per location. */
  function LocationRows(db: Database): (rows: seq<LocationRow>)
    ensures |rows| == |db.locations|
    ensures forall i :: 0 <= i < |rows| ==>
      var l := db.locations[i];
      var n := Count(CrimeLocationIds(db), l.id);
      rows[i] == LocationRow(l.id, l.address, l.geolocation, l.typeOfAddress, if n == 0 then None else Some(n))
  {
    seq(|db.locations|, i requires 0 <= i < |db.locations| =>
      var l := db.locations[i];
      LocationRow(l.id, l.address, l.geolocation, l.typeOfAddress, CountOf(CrimeLocationIds(db), l.id)))
  }

  /** `ORDER BY locations.location_id`. */
  predicate ById(a: LocationRow, b: LocationRow) {
    StrLe(a.id, b.id)
  }

  lemma ByIdIsTotal()
    ensures TotalPreorder(ById)
  {
    forall a: LocationRow, b: LocationRow ensures ById(a, b) || ById(b, a) {
      StrLeTotal(a.id, b.id);
    }
    forall a: LocationRow, b: LocationRow, c: LocationRow | ById(a, b) && ById(b, c) ensures ById(a, c) {
      StrLeTransitive(a.id, b.id, c.id);
    }
  }

  /** The `.where` calls of the handler, in order. */
  function ListingWheres(f: LocationFilters): (w: seq<Cond<LocationColumn>>)
    ensures |w| <= 2
    ensures w == [] <==> !Applies(f.addressType, Some(AllTypes)) && !Truthy(f.search)
    ensures Truthy(f.search) ==> w[|w| - 1] == AnyLike(SearchColumns, SqlLike.SearchPattern(f.search.value))
  {
    var w := WhereEquals([], TypeOfAddress, f.addressType, Some(AllTypes));
    WhereSearch(w, SearchColumns, f.search)
  }

  /** The handler's filter block. */
  method BuildListingQuery(f: LocationFilters) returns (wheres: seq<Cond<LocationColumn>>)
    ensures wheres == ListingWheres(f)
  {
    wheres := [];
    if Truthy(f.addressType) && f.addressType.value != AllTypes {
      wheres := wheres + [Equals(TypeOfAddress, f.addressType.value)];
    }
    if Truthy(f.search) {
      wheres := wheres + [AnyLike(SearchColumns, SqlLike.SearchPattern(f.search.value))];
    }
  }

  /** Reference meaning: the address type matches when chosen, and the search hits the address or the id. */
  predicate Selected(rule: WhereRule, f: LocationFilters, r: LocationRow) {
    match rule
    case Conjoin =>
      && (Applies(f.addressType, Some(AllTypes)) ==> r.typeOfAddress == f.addressType.value)
      && (Truthy(f.search) ==> SearchHit(f.search.value, [Some(r.address), Some(r.id)]))
    case LastWins =>
      if Truthy(f.search) then SearchHit(f.search.value, [Some(r.address), Some(r.id)])
      else Applies(f.addressType, Some(AllTypes)) ==> r.typeOfAddress == f.addressType.value
  }

  lemma {:induction false} FiltersSelect(f: LocationFilters, rule: WhereRule, r: LocationRow)
    ensures Keeps(ListingWheres(f), rule, r, LocationText, NoDate) <==> Selected(rule, f, r)
  {
    var w0: seq<Cond<LocationColumn>> := [];
    var w1 := WhereEquals(w0, TypeOfAddress, f.addressType, Some(AllTypes));
    NoWhereKeepsAll(rule, r, LocationText, NoDate);
    WhereEqualsSelects(w0, TypeOfAddress, f.addressType, Some(AllTypes), r, LocationText, NoDate);
    WhereSearchSelects(w1, SearchColumns, f.search, r, LocationText, NoDate);
    assert ColumnValues(r, SearchColumns, LocationText) == [Some(r.address), Some(r.id)];
  }

  /** The locations the filters select, each with its crime count, in order of id. */
  function Locations(db: Database, f: LocationFilters, rule: WhereRule): (rows: seq<LocationRow>)
    ensures Sorted(rows, ById)
    ensures forall r :: multiset(rows)[r] == if Selected(rule, f, r) then multiset(LocationRows(db))[r] else 0
  {
    var w := ListingWheres(f);
    ByIdIsTotal();
    assert forall r :: Keeps(w, rule, r, LocationText, NoDate) <==> Selected(rule, f, r) by {
      forall r ensures Keeps(w, rule, r, LocationText, NoDate) <==> Selected(rule, f, r) {
        FiltersSelect(f, rule, r);
      }
    }
    SelectOrdered(LocationRows(db), r => Keeps(w, rule, r, LocationText, NoDate), ById)
  }
}
