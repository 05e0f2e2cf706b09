/**
  * `GET /api/crimes/:id`: one crime with the records around it (its location, a police
  * report filed for it, that report's officer, the weather of its day and a social media
  * post from the day before to the day after), or not-found.
  */
module CrimeDetail {
  import opened Wrappers
  import opened Sequences
  import opened Schema

  /** The tables the handler queries, in the order it queries them. */
  datatype Lookup = CrimeLookup | LocationLookup | PoliceReportLookup | OfficerLookup | WeatherLookup | SocialMediaLookup

  /** The police report fields the response carries. */
  datatype ReportSummary = ReportSummary(id: string, date: Day, outcome: string, officerId: string)

  datatype Detail = Detail(
    id: string, date: Day, description: string, crimeType: string, status: string, locationId: string,
    location: Option<Location>,
    policeReport: Option<ReportSummary>,
    officer: Option<PoliceOfficer>,
    weather: Option<WeatherRecord>,
    socialMedia: Option<SocialMediaPost>)

  /** The 404 response, or the assembled record. */
  datatype Response = NotFound | Found(detail: Detail)

  function Summary(pr: PoliceReport): ReportSummary {
    ReportSummary(pr.id, pr.date, pr.outcome, pr.officerId)
  }

  /** `SELECT ... FROM crime_reports WHERE crime_id = id LIMIT 1`. */
  function CrimeById(db: Database, id: string): (r: Option<CrimeReport>)
    ensures r.None? <==> forall c :: c in db.crimeReports ==> c.id != id
    ensures r.Some? ==> r.value in db.crimeReports && r.value.id == id
  {
    var r := FindFirst(db.crimeReports, (c: CrimeReport) => c.id == id);
    assert r.Some? ==> r.value in db.crimeReports;
    r
  }

  /** The crime's location: `locations WHERE location_id = ... LIMIT 1`. */
  function LocationById(db: Database, locationId: string): (r: Option<Location>)
    ensures r.None? <==> forall l :: l in db.locations ==> l.id != locationId
    ensures r.Some? ==> r.value in db.locations && r.value.id == locationId
  {
    var r := FindFirst(db.locations, (l: Location) => l.id == locationId);
    assert r.Some? ==> r.value in db.locations;
    r
  }

  /** A police report filed for the crime: `police_reports WHERE crime_id = id LIMIT 1`. */
  function ReportFor(db: Database, id: string): (r: Option<PoliceReport>)
    ensures r.None? <==> forall pr :: pr in db.policeReports ==> pr.crimeId != id
    ensures r.Some? ==> r.value in db.policeReports && r.value.crimeId == id
  {
    var r := FindFirst(db.policeReports, (pr: PoliceReport) => pr.crimeId == id);
    assert r.Some? ==> r.value in db.policeReports;
    r
  }

  /** The report's officer: `police_officers WHERE officer_id = ... LIMIT 1`. */
  function OfficerById(db: Database, officerId: string): (r: Option<PoliceOfficer>)
    ensures r.None? <==> forall o :: o in db.policeOfficers ==> o.id != officerId
    ensures r.Some? ==> r.value in db.policeOfficers && r.value.id == officerId
  {
    var r := FindFirst(db.policeOfficers, (o: PoliceOfficer) => o.id == officerId);
    assert r.Some? ==> r.value in db.policeOfficers;
    r
  }

  /** The weather of the crime's day: `weather_data WHERE date = ... LIMIT 1`. */
  function WeatherOn(db: Database, day: Day): (r: Option<WeatherRecord>)
    ensures r.None? <==> forall w :: w in db.weatherData ==> w.date != day
    ensures r.Some? ==> r.value in db.weatherData && r.value.date == day
  {
    var r := FindFirst(db.weatherData, (w: WeatherRecord) => w.date == day);
    assert r.Some? ==> r.value in db.weatherData;
    r
  }

  /** A post from the day before to the day after, both included: `social_media WHERE date BETWEEN ... LIMIT 1`. */
  function PostNear(db: Database, day: Day): (r: Option<SocialMediaPost>)
    ensures r.None? <==> forall p :: p in db.socialMedia ==> !(day - 1 <= p.date <= day + 1)
    ensures r.Some? ==> r.value in db.socialMedia && day - 1 <= r.value.date <= day + 1
  {
    var r := FindFirst(db.socialMedia, (p: SocialMediaPost) => day - 1 <= p.date <= day + 1);
    assert r.Some? ==> r.value in db.socialMedia;
    r
  }

  /**
    * The handler: the crime first, and not-found at once when there is none; then the
    * location, a police report, the officer only when a report was found, the weather and a
    * post near the date. Each `LIMIT 1` lookup yields a matching row or `null` (see the
    * lookups above); `trace` lists the lookups made.
    */
  method GetCrimeDetail(db: Database, id: string) returns (response: Response, trace: seq<Lookup>)
    ensures response.NotFound? <==> CrimeById(db, id).None?
    ensures response.NotFound? ==> trace == [CrimeLookup]
    ensures response.Found? ==>
              trace == [CrimeLookup, LocationLookup, PoliceReportLookup] +
                       (if response.detail.policeReport.Some? then [OfficerLookup] else []) +
                       [WeatherLookup, SocialMediaLookup]
    ensures response.Found? ==>
              var c := CrimeById(db, id).value;
              var report := ReportFor(db, id);
              response.detail == Detail(c.id, c.date, c.description, c.typeOfCrime, c.arrestStatus, c.locationId,
                                        LocationById(db, c.locationId),
                                        if report.Some? then Some(Summary(report.value)) else None,
                                        if report.Some? then OfficerById(db, report.value.officerId) else None,
                                        WeatherOn(db, c.date),
                                        PostNear(db, c.date))
  {
    trace := [CrimeLookup];
    var crime := CrimeById(db, id);
    if crime.None? {
      return NotFound, trace;
    }
    var c := crime.value;

    trace := trace + [LocationLookup];
    var location := LocationById(db, c.locationId);

    trace := trace + [PoliceReportLookup];
    var report := ReportFor(db, id);
    var summary: Option<ReportSummary> := None;
    var officer: Option<PoliceOfficer> := None;
    if report.Some? {
      summary := Some(Summary(report.value));
      trace := trace + [OfficerLookup];
      officer := OfficerById(db, report.value.officerId);
    }

    trace := trace + [WeatherLookup];
    var weather := WeatherOn(db, c.date);

    trace := trace + [SocialMediaLookup];
    var post := PostNear(db, c.date);

    response := Found(Detail(c.id, c.date, c.description, c.typeOfCrime, c.arrestStatus, c.locationId,
                             location, summary, officer, weather, post));
  }

  /** A detail's officer is the officer of its police report; there is none without a report. */
  lemma OfficerNeedsReport(db: Database, id: string, d: Detail)
    requires CrimeById(db, id).Some?
    requires var report := ReportFor(db, id);
             d.policeReport == (if report.Some? then Some(Summary(report.value)) else None) &&
             d.officer == (if report.Some? then OfficerById(db, report.value.officerId) else None)
    ensures d.officer.Some? ==> d.policeReport.Some? && d.officer.value.id == d.policeReport.value.officerId
    ensures d.policeReport.None? ==> d.officer.None?
  {
  }
}
