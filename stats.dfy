/**
  * The dashboard's statistics endpoints: `GET /api/stats`, `GET /api/crime-types`,
  * `GET /api/arrest-status`, `GET /api/crime-locations`, `GET /api/crime-trends` and the
  * positions part of `GET /api/officer-stats`.
  */
module Statistics {
  import opened Wrappers
  import opened Sequences
  import opened Grouping
  import opened Schema

  function CrimeTypes(db: Database): (ts: seq<string>)
    ensures |ts| == |db.crimeReports| && forall i :: 0 <= i < |ts| ==> ts[i] == db.crimeReports[i].typeOfCrime
  {
    seq(|db.crimeReports|, i requires 0 <= i < |db.crimeReports| => db.crimeReports[i].typeOfCrime)
  }

  function ArrestStatuses(db: Database): (ss: seq<string>)
    ensures |ss| == |db.crimeReports| && forall i :: 0 <= i < |ss| ==> ss[i] == db.crimeReports[i].arrestStatus
  {
    seq(|db.crimeReports|, i requires 0 <= i < |db.crimeReports| => db.crimeReports[i].arrestStatus)
  }

  /** `ORDER BY count(*) DESC`. */
  predicate MostFirst(a: (string, nat), b: (string, nat)) {
    a.1 >= b.1
  }

  /**
    * `GET /api/crime-types`: one entry per crime type that occurs, with its number of
    * crimes, the most frequent first (ties in no particular order).
    */
  function CrimeTypeCounts(db: Database): (g: seq<(string, nat)>)
    ensures Sorted(g, MostFirst)
    ensures multiset(g) == multiset(GroupCount(CrimeTypes(db)))
    ensures forall i, j :: 0 <= i < j < |g| ==> g[i].0 != g[j].0
    ensures forall e :: e in g ==> e.1 == Count(CrimeTypes(db), e.0) && e.1 >= 1
    ensures forall t :: t in CrimeTypes(db) ==> exists e :: e in g && e.0 == t
  {
    assert TotalPreorder(MostFirst);
    SortBySorted(GroupCount(CrimeTypes(db)), MostFirst);
    var g := SortBy(GroupCount(CrimeTypes(db)), MostFirst);
    ReorderedGroups(CrimeTypes(db), g);
    g
  }

  /** `mostCommonCrime`, with the response's percentage; `None` is the `null` that `NaN` becomes. */
  datatype MostCommon = MostCommon(crimeType: string, count: nat, percentage: Option<nat>)

  /** The fallback when there are no crimes at all. */
  const NoCrime: string := "None"

  /**
    * The first row of the crime-type counts (`LIMIT 1`), or `{type: 'None', count: 0}`
    * when there are no crimes; its percentage of all crimes, rounded.
    */
  function MostCommonCrime(db: Database): (m: MostCommon)
    ensures |db.crimeReports| == 0 ==> m == MostCommon(NoCrime, 0, None)
    ensures |db.crimeReports| > 0 ==>
              && m.crimeType in CrimeTypes(db)
              && m.count == Count(CrimeTypes(db), m.crimeType)
              && (forall t :: Count(CrimeTypes(db), t) <= m.count)
              && m.percentage == RoundedPercent(m.count, |db.crimeReports|)
  {
    var top := Take(CrimeTypeCounts(db), 1);
    if top == [] then
      MostCommon(NoCrime, 0, RoundedPercent(0, |db.crimeReports|))
    else
      var g := CrimeTypeCounts(db);
      var e := g[0];
      assert e in g;
      assert forall t :: Count(CrimeTypes(db), t) <= e.1 by {
        forall t ensures Count(CrimeTypes(db), t) <= e.1 {
          if t in CrimeTypes(db) {
            var f :| f in g && f.0 == t;
            var j :| 0 <= j < |g| && g[j] == f;
            assert j == 0 || MostFirst(g[0], g[j]);
          }
        }
      }
      assert e.0 in CrimeTypes(db) by {
        assert Count(CrimeTypes(db), e.0) >= 1;
      }
      MostCommon(e.0, e.1, RoundedPercent(e.1, |db.crimeReports|))
  }

  const Arrested: string := "Arrested"

  /** The statistic cards of `GET /api/stats`. */
  datatype Stats = Stats(totalCrimes: nat, arrestRate: Option<nat>, mostCommonCrime: MostCommon, recentCrimes: nat)

  /**
    * `GET /api/stats`; `cutoff` is the day thirty days before the request, the bound of
    * `recentCrimes` (`date >= cutoff`).
    */
  function DashboardStats(db: Database, cutoff: Day): (s: Stats)
    ensures s.totalCrimes == |db.crimeReports|
    ensures s.arrestRate == RoundedPercent(Count(ArrestStatuses(db), Arrested), |db.crimeReports|)
    ensures s.arrestRate.Some? ==> s.arrestRate.value <= 100
    ensures s.mostCommonCrime == MostCommonCrime(db)
    ensures s.recentCrimes == |Filter(db.crimeReports, (c: CrimeReport) => c.date >= cutoff)|
    ensures s.recentCrimes <= s.totalCrimes
  {
    var arrested := Count(ArrestStatuses(db), Arrested);
    assert arrested <= |db.crimeReports| by {
      assert multiset(ArrestStatuses(db))[Arrested] <= |multiset(ArrestStatuses(db))|;
    }
    Stats(|db.crimeReports|, RoundedPercent(arrested, |db.crimeReports|), MostCommonCrime(db),
          |Filter(db.crimeReports, (c: CrimeReport) => c.date >= cutoff)|)
  }

  /** One entry of `GET /api/arrest-status`. */
  datatype StatusShare = StatusShare(status: string, count: nat, percentage: Option<nat>)

  function Shares(g: seq<(string, nat)>, total: nat): (r: seq<StatusShare>)
    ensures |r| == |g|
    ensures forall i :: 0 <= i < |g| ==> r[i] == StatusShare(g[i].0, g[i].1, RoundedPercent(g[i].1, total))
  {
    seq(|g|, i requires 0 <= i < |g| => StatusShare(g[i].0, g[i].1, RoundedPercent(g[i].1, total)))
  }

  function ShareCounts(r: seq<StatusShare>): nat {
    if r == [] then 0 else r[0].count + ShareCounts(r[1..])
  }

  lemma {:induction false} ShareCountsAreGroupCounts(g: seq<(string, nat)>, total: nat)
    ensures ShareCounts(Shares(g, total)) == SumCounts(g)
    decreases |g|
  {
    if g != [] {
      ShareCountsAreGroupCounts(g[1..], total);
      assert Shares(g, total)[1..] == Shares(g[1..], total);
    }
  }

  /**
    * `GET /api/arrest-status`: one entry per status that occurs, with its number of crimes
    * and its rounded share of all crimes; the counts add up to the number of crimes.
    */
  function ArrestStatusData(db: Database): (r: seq<StatusShare>)
    ensures forall i, j :: 0 <= i < j < |r| ==> r[i].status != r[j].status
    ensures forall s :: (exists i :: 0 <= i < |r| && r[i].status == s) <==> s in ArrestStatuses(db)
    ensures forall i :: 0 <= i < |r| ==> r[i].count == Count(ArrestStatuses(db), r[i].status) && r[i].count >= 1
    ensures forall i :: 0 <= i < |r| ==> r[i].percentage == RoundedPercent(r[i].count, |db.crimeReports|)
    ensures forall i :: 0 <= i < |r| ==> r[i].percentage.Some? && r[i].percentage.value <= 100
    ensures ShareCounts(r) == |db.crimeReports|
  {
    SharesOfGroups(ArrestStatuses(db));
    Shares(GroupCount(ArrestStatuses(db)), |db.crimeReports|)
  }

  /**
    * The shares of a grouping, out of the number of keys: one entry per distinct key, with
    * its number of occurrences, which add up to the number of keys.
    */
  lemma SharesOfGroups(keys: seq<string>)
    ensures var r := Shares(GroupCount(keys), |keys|);
            && (forall i, j :: 0 <= i < j < |r| ==> r[i].status != r[j].status)
            && (forall s :: (exists i :: 0 <= i < |r| && r[i].status == s) <==> s in keys)
            && (forall i :: 0 <= i < |r| ==> r[i].count == Count(keys, r[i].status) && r[i].count >= 1)
            && (forall i :: 0 <= i < |r| ==> r[i].count <= |keys|)
            && ShareCounts(r) == |keys|
  {
    var g := GroupCount(keys);
    GroupCountGroups(keys);
    GroupCountTotal(keys);
    var r := Shares(g, |keys|);
    ShareCountsAreGroupCounts(g, |keys|);
    forall i, j | 0 <= i < j < |r| ensures r[i].status != r[j].status {
      assert Keys(g)[i] != Keys(g)[j];
    }
    forall s ensures (exists i :: 0 <= i < |r| && r[i].status == s) <==> s in keys {
      if s in keys {
        assert s in Keys(g);
        var i :| 0 <= i < |g| && Keys(g)[i] == s;
        assert r[i].status == s;
      }
      if i :| 0 <= i < |r| && r[i].status == s {
        assert Keys(g)[i] in Keys(g);
      }
    }
    forall i | 0 <= i < |r| ensures r[i].count <= |keys| {
      assert multiset(keys)[g[i].0] <= |multiset(keys)|;
    }
  }

  function Positions(db: Database): (ps: seq<string>)
    ensures |ps| == |db.policeOfficers| && forall i :: 0 <= i < |ps| ==> ps[i] == db.policeOfficers[i].position
  {
    seq(|db.policeOfficers|, i requires 0 <= i < |db.policeOfficers| => db.policeOfficers[i].position)
  }

  /**
    * `byPosition` of `GET /api/officer-stats`: one entry per position held, with the number
    * of officers holding it; the counts add up to the number of officers.
    */
  function ByPosition(db: Database): (g: seq<(string, nat)>)
    ensures Distinct(Keys(g))
    ensures forall p :: p in Keys(g) <==> p in Positions(db)
    ensures forall i :: 0 <= i < |g| ==> g[i].1 == Count(Positions(db), g[i].0) && g[i].1 >= 1
    ensures SumCounts(g) == |db.policeOfficers|
  {
    GroupCountGroups(Positions(db));
    GroupCountTotal(Positions(db));
    GroupCount(Positions(db))
  }

  /** One row of `GET /api/crime-locations`: a location, and one crime there or none. */
  datatype LocationCrime = LocationCrime(
    id: string, address: string, geolocation: string, typeOfAddress: string,
    crimeId: Option<string>, crimeType: Option<string>, crimeDescription: Option<string>)

  /** The row of location `l` joined with crime `c`. */
  function CrimeAt(l: Location, c: CrimeReport): LocationCrime {
    LocationCrime(l.id, l.address, l.geolocation, l.typeOfAddress, Some(c.id), Some(c.typeOfCrime), Some(c.description))
  }

  /** The crime ids a join result carries, rows without a crime left out. */
  function JoinedCrimeIds(rows: seq<LocationCrime>): seq<string> {
    if rows == [] then []
    else (if rows[0].crimeId.Some? then [rows[0].crimeId.value] else []) + JoinedCrimeIds(rows[1..])
  }

  /** The ids of the crimes reported at one of the locations `at`, once per stored crime. */
  function CrimeIdsAt(crimes: seq<CrimeReport>, at: set<string>): seq<string> {
    if crimes == [] then []
    else (if crimes[0].locationId in at then [crimes[0].id] else []) + CrimeIdsAt(crimes[1..], at)
  }

  /**
    * The inner part of the join for one location: a scan of the crime table that pairs `l`
    * with every crime reported there, one row per stored crime.
    */
  function CrimeRowsAt(l: Location, crimes: seq<CrimeReport>): (rows: seq<LocationCrime>)
    ensures forall r :: r in rows ==> exists c :: c in crimes && c.locationId == l.id && r == CrimeAt(l, c)
    ensures JoinedCrimeIds(rows) == CrimeIdsAt(crimes, {l.id})
    ensures rows == [] <==> forall c :: c in crimes ==> c.locationId != l.id
  {
    if crimes == [] then []
    else
      var rest := CrimeRowsAt(l, crimes[1..]);
      assert forall c :: c in crimes <==> c == crimes[0] || c in crimes[1..] by {
        assert crimes == [crimes[0]] + crimes[1..];
      }
      if crimes[0].locationId == l.id then
        var rows := [CrimeAt(l, crimes[0])] + rest;
        assert rows[1..] == rest;
        rows
      else
        rest
  }

  /** The rows one location contributes to `locations LEFT JOIN crime_reports`. */
  function LocationJoin(l: Location, crimes: seq<CrimeReport>): (rows: seq<LocationCrime>)
    ensures |rows| >= 1
    ensures forall r :: r in rows ==> r.id == l.id && r.address == l.address && r.geolocation == l.geolocation && r.typeOfAddress == l.typeOfAddress
    ensures forall r :: r in rows ==>
              || (r.crimeId.None? && r.crimeType.None? && r.crimeDescription.None? && forall c :: c in crimes ==> c.locationId != l.id)
              || (exists c :: c in crimes && c.locationId == l.id && r.crimeId == Some(c.id) && r.crimeType == Some(c.typeOfCrime) && r.crimeDescription == Some(c.description))
    ensures multiset(JoinedCrimeIds(rows)) == multiset(CrimeIdsAt(crimes, {l.id}))
  {
    var here := CrimeRowsAt(l, crimes);
    if here == [] then
      var rows := [LocationCrime(l.id, l.address, l.geolocation, l.typeOfAddress, None, None, None)];
      assert JoinedCrimeIds(rows) == [] by {
        assert rows[1..] == [];
      }
      rows
    else
      here
  }

  function LocationJoins(ls: seq<Location>, crimes: seq<CrimeReport>): (rows: seq<LocationCrime>)
    ensures |rows| >= |ls|
  {
    if ls == [] then [] else LocationJoin(ls[0], crimes) + LocationJoins(ls[1..], crimes)
  }

  /** Every row of the join belongs to one of the locations and carries its columns. */
  lemma {:induction false} LocationJoinsRows(ls: seq<Location>, crimes: seq<CrimeReport>)
    ensures forall r :: r in LocationJoins(ls, crimes) ==>
              exists l :: l in ls && r.id == l.id && r.address == l.address && r.geolocation == l.geolocation && r.typeOfAddress == l.typeOfAddress
  {
    if ls != [] {
      LocationJoinsRows(ls[1..], crimes);
      var first := LocationJoin(ls[0], crimes);
      var rest := LocationJoins(ls[1..], crimes);
      assert LocationJoins(ls, crimes) == first + rest;
      forall r: LocationCrime | r in first + rest
        ensures exists l :: l in ls && r.id == l.id && r.address == l.address && r.geolocation == l.geolocation && r.typeOfAddress == l.typeOfAddress
      {
        if r in first {
          assert ls[0] in ls;
        } else {
          var l :| l in ls[1..] && r.id == l.id && r.address == l.address && r.geolocation == l.geolocation && r.typeOfAddress == l.typeOfAddress;
          assert l in ls;
        }
      }
    }
  }

  /** Every location has a row in the join, whether or not a crime was reported there. */
  lemma {:induction false} EveryLocationJoined(ls: seq<Location>, crimes: seq<CrimeReport>)
    ensures forall l :: l in ls ==> exists r :: r in LocationJoins(ls, crimes) && r.id == l.id
  {
    if ls != [] {
      EveryLocationJoined(ls[1..], crimes);
      var first := LocationJoin(ls[0], crimes);
      var rest := LocationJoins(ls[1..], crimes);
      assert LocationJoins(ls, crimes) == first + rest;
      forall l: Location | l in ls ensures exists r: LocationCrime :: r in first + rest && r.id == l.id {
        if l == ls[0] {
          assert first[0] in first;
        } else {
          assert l in ls[1..];
          var r :| r in rest && r.id == l.id;
          assert r in first + rest;
        }
      }
    }
  }

  /** The ids of the locations in `ls`. */
  function LocationIdSet(ls: seq<Location>): set<string> {
    set l | l in ls :: l.id
  }

  /** Location ids are the table's primary key. */
  predicate UniqueLocationIds(ls: seq<Location>) {
    forall i, j :: 0 <= i < j < |ls| ==> ls[i].id != ls[j].id
  }

  lemma {:induction false} JoinedCrimeIdsAppend(a: seq<LocationCrime>, b: seq<LocationCrime>)
    ensures JoinedCrimeIds(a + b) == JoinedCrimeIds(a) + JoinedCrimeIds(b)
  {
    if a == [] {
      assert a + b == b;
    } else {
      var head := if a[0].crimeId.Some? then [a[0].crimeId.value] else [];
      JoinedCrimeIdsAppend(a[1..], b);
      assert (a + b)[0] == a[0] && (a + b)[1..] == a[1..] + b;
      assert JoinedCrimeIds(a + b) == head + JoinedCrimeIds(a[1..] + b);
      assert JoinedCrimeIds(a) == head + JoinedCrimeIds(a[1..]);
      assert head + (JoinedCrimeIds(a[1..]) + JoinedCrimeIds(b)) == (head + JoinedCrimeIds(a[1..])) + JoinedCrimeIds(b);
    }
  }

  lemma {:induction false} CrimeIdsAtUnion(crimes: seq<CrimeReport>, x: string, at: set<string>)
    requires x !in at
    ensures multiset(CrimeIdsAt(crimes, {x} + at)) == multiset(CrimeIdsAt(crimes, {x})) + multiset(CrimeIdsAt(crimes, at))
  {
    if crimes != [] {
      CrimeIdsAtUnion(crimes[1..], x, at);
    }
  }

  /** The first location's id is new to the rest, whose ids are unique too. */
  lemma UniqueLocationIdsTail(ls: seq<Location>)
    requires ls != [] && UniqueLocationIds(ls)
    ensures UniqueLocationIds(ls[1..])
    ensures LocationIdSet(ls) == {ls[0].id} + LocationIdSet(ls[1..])
    ensures ls[0].id !in LocationIdSet(ls[1..])
  {
    var rest := ls[1..];
    assert ls == [ls[0]] + rest;
    forall j | 0 <= j < |rest| ensures rest[j].id != ls[0].id {
      assert rest[j] == ls[j + 1];
    }
  }

  /**
    * With location ids unique, the join lists every crime reported at one of the locations
    * exactly as often as it is stored, and no other crime.
    */
  lemma {:induction false} EveryCrimeJoinedOnce(ls: seq<Location>, crimes: seq<CrimeReport>)
    requires UniqueLocationIds(ls)
    ensures multiset(JoinedCrimeIds(LocationJoins(ls, crimes))) == multiset(CrimeIdsAt(crimes, LocationIdSet(ls)))
  {
    if ls == [] {
      assert LocationIdSet(ls) == {};
      CrimeIdsAtEmpty(crimes);
    } else {
      var rest := ls[1..];
      UniqueLocationIdsTail(ls);
      EveryCrimeJoinedOnce(rest, crimes);
      JoinedCrimeIdsAppend(LocationJoin(ls[0], crimes), LocationJoins(rest, crimes));
      CrimeIdsAtUnion(crimes, ls[0].id, LocationIdSet(rest));
    }
  }

  lemma {:induction false} CrimeIdsAtEmpty(crimes: seq<CrimeReport>)
    ensures CrimeIdsAt(crimes, {}) == []
  {
    if crimes != [] {
      CrimeIdsAtEmpty(crimes[1..]);
    }
  }

  const MapLimit: nat := 100

  /**
    * `GET /api/crime-locations`: the first hundred rows of the outer join, taken location by
    * location (the query names no order).
    */
  function CrimeLocations(db: Database): (rows: seq<LocationCrime>)
    ensures |rows| <= MapLimit
    ensures |db.locations| >= MapLimit ==> |rows| == MapLimit
    ensures rows <= LocationJoins(db.locations, db.crimeReports)
    ensures |LocationJoins(db.locations, db.crimeReports)| <= MapLimit ==>
              forall l :: l in db.locations ==> exists r :: r in rows && r.id == l.id
    ensures |LocationJoins(db.locations, db.crimeReports)| <= MapLimit && UniqueLocationIds(db.locations) ==>
              multiset(JoinedCrimeIds(rows)) == multiset(CrimeIdsAt(db.crimeReports, LocationIdSet(db.locations)))
  {
    EveryLocationJoined(db.locations, db.crimeReports);
    var joined := LocationJoins(db.locations, db.crimeReports);
    if UniqueLocationIds(db.locations) then
      EveryCrimeJoinedOnce(db.locations, db.crimeReports);
      Take(joined, MapLimit)
    else
      Take(joined, MapLimit)
  }

  /** One row of `GET /api/crime-trends`. */
  datatype MonthlyCount = MonthlyCount(year: int, month: int, count: nat)

  function CrimeMonths(db: Database, monthOf: Day -> (int, int)): (ms: seq<(int, int)>)
    ensures |ms| == |db.crimeReports| && forall i :: 0 <= i < |ms| ==> ms[i] == monthOf(db.crimeReports[i].date)
  {
    seq(|db.crimeReports|, i requires 0 <= i < |db.crimeReports| => monthOf(db.crimeReports[i].date))
  }

  function MonthlyCounts(g: seq<((int, int), nat)>): (rows: seq<MonthlyCount>)
    ensures |rows| == |g|
    ensures forall i :: 0 <= i < |g| ==> rows[i] == MonthlyCount(g[i].0.0, g[i].0.1, g[i].1)
  {
    seq(|g|, i requires 0 <= i < |g| => MonthlyCount(g[i].0.0, g[i].0.1, g[i].1))
  }

  predicate Chronological(a: MonthlyCount, b: MonthlyCount) {
    a.year < b.year || (a.year == b.year && a.month <= b.month)
  }

  /** `ORDER BY year, month_num` on the groups. */
  predicate MonthOrder(a: ((int, int), nat), b: ((int, int), nat)) {
    a.0.0 < b.0.0 || (a.0.0 == b.0.0 && a.0.1 <= b.0.1)
  }

  lemma MonthlyCountsSorted(g: seq<((int, int), nat)>)
    requires Sorted(g, MonthOrder)
    ensures Sorted(MonthlyCounts(g), Chronological)
  {
    var rows := MonthlyCounts(g);
    forall i, j | 0 <= i < j < |rows| ensures Chronological(rows[i], rows[j]) {
      assert MonthOrder(g[i], g[j]);
    }
  }

  /**
    * `GET /api/crime-trends`: one row per calendar month with crimes, counting them, in order
    * of year and month; `monthOf` stands for `EXTRACT(YEAR/MONTH FROM date)`.
    */
  function CrimeTrends(db: Database, monthOf: Day -> (int, int)): (rows: seq<MonthlyCount>)
    ensures Sorted(rows, Chronological)
    ensures forall i, j :: 0 <= i < j < |rows| ==> (rows[i].year, rows[i].month) != (rows[j].year, rows[j].month)
    ensures forall r :: r in rows ==> r.count == Count(CrimeMonths(db, monthOf), (r.year, r.month)) && r.count >= 1
    ensures forall ym :: ym in CrimeMonths(db, monthOf) ==> exists r :: r in rows && (r.year, r.month) == ym
  {
    var keys := CrimeMonths(db, monthOf);
    var g := GroupCount(keys);
    assert TotalPreorder(MonthOrder);
    SortBySorted(g, MonthOrder);
    var sortedGroups := SortBy(g, MonthOrder);
    ReorderedGroups(keys, sortedGroups);
    var rows := MonthlyCounts(sortedGroups);
    MonthlyCountsSorted(sortedGroups);
    assert forall r :: r in rows ==> r.count == Count(keys, (r.year, r.month)) && r.count >= 1 by {
      forall r | r in rows ensures r.count == Count(keys, (r.year, r.month)) && r.count >= 1 {
        var k :| 0 <= k < |rows| && rows[k] == r;
        assert sortedGroups[k] in sortedGroups;
      }
    }
    assert forall ym :: ym in keys ==> exists r :: r in rows && (r.year, r.month) == ym by {
      forall ym | ym in keys ensures exists r :: r in rows && (r.year, r.month) == ym {
        var e :| e in sortedGroups && e.0 == ym;
        var k :| 0 <= k < |sortedGroups| && sortedGroups[k] == e;
        assert rows[k] in rows;
      }
    }
    rows
  }
}
