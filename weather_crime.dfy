/**
  * `GET /api/weather-crime-stats`: every weather record, oldest first, paired with the
  * number of crimes reported on its day; and the crimes counted by the precipitation band
  * and by the temperature band of the weather on their day.
  */
module WeatherCrime {
  import opened Text
  import opened Sequences
  import opened Grouping
  import opened Schema
  import opened DateFormat

  /** The crime dates, the keys of `crimesPerDate` (`GROUP BY crime_reports.date`). */
  function CrimeDates(db: Database): (ds: seq<Day>)
    ensures |ds| == |db.crimeReports| && forall i :: 0 <= i < |ds| ==> ds[i] == db.crimeReports[i].date
  {
    seq(|db.crimeReports|, i requires 0 <= i < |db.crimeReports| => db.crimeReports[i].date)
  }

  /**
    * `crimeDateMap`: the `(date, count)` entries set into a map under their formatted date,
    * one after the other, so that a later entry under the same key replaces an earlier one.
    */
  function DateMap(entries: seq<(Day, nat)>, iso: Day -> string): (m: map<string, nat>)
    ensures forall key :: key in m <==> exists i :: 0 <= i < |entries| && FormatDate(entries[i].0, iso) == key
    decreases |entries|
  {
    if entries == [] then map[]
    else
      var front := entries[..|entries| - 1];
      var last := entries[|entries| - 1];
      assert forall i :: 0 <= i < |front| ==> front[i] == entries[i];
      DateMap(front, iso)[FormatDate(last.0, iso) := last.1]
  }

  /** The value under a key is the count of the last entry with that key. */
  lemma {:induction false} DateMapLastWrite(entries: seq<(Day, nat)>, iso: Day -> string, i: nat)
    requires i < |entries|
    requires forall j :: i < j < |entries| ==> FormatDate(entries[j].0, iso) != FormatDate(entries[i].0, iso)
    ensures FormatDate(entries[i].0, iso) in DateMap(entries, iso)
    ensures DateMap(entries, iso)[FormatDate(entries[i].0, iso)] == entries[i].1
    decreases |entries|
  {
    var front := entries[..|entries| - 1];
    if i < |entries| - 1 {
      assert forall j :: 0 <= j < |front| ==> front[j] == entries[j];
      DateMapLastWrite(front, iso, i);
    }
  }

  /** The `forEach` that fills `crimeDateMap`. */
  method BuildDateMap(entries: seq<(Day, nat)>, iso: Day -> string) returns (m: map<string, nat>)
    ensures m == DateMap(entries, iso)
  {
    m := map[];
    for k := 0 to |entries|
      invariant m == DateMap(entries[..k], iso)
    {
      assert entries[..k + 1][..k] == entries[..k];
      m := m[FormatDate(entries[k].0, iso) := entries[k].1];
    }
    assert entries[..|entries|] == entries;
  }

  /** One entry of `weatherCrimeData`. */
  datatype WeatherCrimeRow = WeatherCrimeRow(
    date: string, temperature: string, precipitation: string, windSpeed: string, crimeCount: nat)

  /** The combining `map`: the counts looked up by formatted date, a missing date counting 0. */
  function Combine(ws: seq<WeatherRecord>, m: map<string, nat>, iso: Day -> string): (rows: seq<WeatherCrimeRow>)
    ensures |rows| == |ws|
    ensures forall i :: 0 <= i < |ws| ==>
              && rows[i].date == FormatDate(ws[i].date, iso)
              && rows[i].temperature == ws[i].temperature
              && rows[i].precipitation == ws[i].precipitation
              && rows[i].windSpeed == ws[i].windSpeed
              && rows[i].crimeCount == if rows[i].date in m then m[rows[i].date] else 0
  {
    seq(|ws|, i requires 0 <= i < |ws| =>
      var key := FormatDate(ws[i].date, iso);
      WeatherCrimeRow(key, ws[i].temperature, ws[i].precipitation, ws[i].windSpeed, if key in m then m[key] else 0))
  }

  /** `ORDER BY weather_data.date`. */
  predicate OldestFirst(a: WeatherRecord, b: WeatherRecord) {
    a.date <= b.date
  }

  function WeatherByDate(db: Database): (ws: seq<WeatherRecord>)
    ensures multiset(ws) == multiset(db.weatherData)
    ensures Sorted(ws, OldestFirst)
  {
    assert TotalPreorder(OldestFirst);
    SortBySorted(db.weatherData, OldestFirst);
    SortBy(db.weatherData, OldestFirst)
  }

  /**
    * `weatherCrimeData`: one row per weather record, in the records' date order, row `i`
    * carrying the readings of the `i`-th record by date.
    */
  function WeatherCrimeData(db: Database, iso: Day -> string): (rows: seq<WeatherCrimeRow>)
    ensures |rows| == |WeatherByDate(db)| == |db.weatherData|
    ensures forall i :: 0 <= i < |rows| ==>
              && rows[i].date == FormatDate(WeatherByDate(db)[i].date, iso)
              && rows[i].temperature == WeatherByDate(db)[i].temperature
              && rows[i].precipitation == WeatherByDate(db)[i].precipitation
              && rows[i].windSpeed == WeatherByDate(db)[i].windSpeed
    ensures forall i :: 0 <= i < |rows| ==>
              exists w :: w in db.weatherData && rows[i].date == FormatDate(w.date, iso) &&
                          rows[i].temperature == w.temperature && rows[i].precipitation == w.precipitation &&
                          rows[i].windSpeed == w.windSpeed
  {
    var rows := Combine(WeatherByDate(db), DateMap(GroupCount(CrimeDates(db)), iso), iso);
    RowsFromRecords(db.weatherData, WeatherByDate(db), rows, iso);
    rows
  }

  /** Rows combined from a reordering of the weather records each carry one record's readings. */
  lemma RowsFromRecords(records: seq<WeatherRecord>, ws: seq<WeatherRecord>, rows: seq<WeatherCrimeRow>, iso: Day -> string)
    requires multiset(ws) == multiset(records) && |rows| == |ws|
    requires forall i :: 0 <= i < |ws| ==>
               && rows[i].date == FormatDate(ws[i].date, iso)
               && rows[i].temperature == ws[i].temperature
               && rows[i].precipitation == ws[i].precipitation
               && rows[i].windSpeed == ws[i].windSpeed
    ensures |rows| == |records|
    ensures forall i :: 0 <= i < |rows| ==>
              exists w :: w in records && rows[i].date == FormatDate(w.date, iso) &&
                          rows[i].temperature == w.temperature && rows[i].precipitation == w.precipitation &&
                          rows[i].windSpeed == w.windSpeed
  {
    assert |multiset(ws)| == |multiset(records)|;
    forall i | 0 <= i < |rows|
      ensures exists w :: w in records && rows[i].date == FormatDate(w.date, iso) &&
                          rows[i].temperature == w.temperature && rows[i].precipitation == w.precipitation &&
                          rows[i].windSpeed == w.windSpeed
    {
      assert ws[i] in multiset(ws);
      assert ws[i] in records;
    }
  }

  /** Distinct days format to distinct strings. */
  ghost predicate FormatsApart(iso: Day -> string) {
    forall a: Day, b: Day :: FormatDate(a, iso) == FormatDate(b, iso) ==> a == b
  }

  /**
    * One entry per weather record, oldest first; when distinct days format apart, each
    * entry's crime count is the number of crimes reported on that record's day.
    */
  lemma {:induction false} CrimeCountsPerDay(db: Database, iso: Day -> string)
    requires FormatsApart(iso)
    ensures |WeatherCrimeData(db, iso)| == |db.weatherData|
    ensures forall i :: 0 <= i < |db.weatherData| ==>
              && WeatherCrimeData(db, iso)[i].date == FormatDate(WeatherByDate(db)[i].date, iso)
              && WeatherCrimeData(db, iso)[i].crimeCount == Count(CrimeDates(db), WeatherByDate(db)[i].date)
  {
    var dates := CrimeDates(db);
    var g := GroupCount(dates);
    var m := DateMap(g, iso);
    var ws := WeatherByDate(db);
    assert |ws| == |db.weatherData| by {
      assert |multiset(ws)| == |multiset(db.weatherData)|;
    }
    GroupCountGroups(dates);
    forall i | 0 <= i < |ws| ensures WeatherCrimeData(db, iso)[i].crimeCount == Count(dates, ws[i].date) {
      var d := ws[i].date;
      var key := FormatDate(d, iso);
      if d in dates {
        assert d in Keys(g);
        var k :| 0 <= k < |g| && Keys(g)[k] == d;
        forall j | k < j < |g| ensures FormatDate(g[j].0, iso) != FormatDate(g[k].0, iso) {
          assert Keys(g)[j] != Keys(g)[k];
        }
        DateMapLastWrite(g, iso, k);
      } else {
        forall k | 0 <= k < |g| ensures FormatDate(g[k].0, iso) != key {
          assert Keys(g)[k] in Keys(g);
        }
      }
    }
  }

  /** The precipitation bands of the analysis. */
  datatype PrecipitationBand = NoPrecipitation | LightPrecipitation | ModeratePrecipitation | HeavyPrecipitation

  /**
    * The precipitation `CASE`, over the amount in hundredths of an inch: each amount lands in
    * exactly the band whose range holds it, none at 0, light up to and including 0.2 in,
    * moderate up to and including 0.5 in, heavy above.
    */
  function PrecipitationBandOf(h: int): (b: PrecipitationBand)
    ensures b == NoPrecipitation <==> h == 0
    ensures b == LightPrecipitation <==> h < 0 || 0 < h <= 20
    ensures b == ModeratePrecipitation <==> 20 < h <= 50
    ensures b == HeavyPrecipitation <==> 50 < h
  {
    if h == 0 then NoPrecipitation
    else if h <= 20 then LightPrecipitation
    else if h <= 50 then ModeratePrecipitation
    else HeavyPrecipitation
  }

  function PrecipitationLabel(b: PrecipitationBand): string {
    match b
    case NoPrecipitation => "No Precipitation"
    case LightPrecipitation => "Light (0-0.2 in)"
    case ModeratePrecipitation => "Moderate (0.2-0.5 in)"
    case HeavyPrecipitation => "Heavy (>0.5 in)"
  }

  function PrecipitationRank(b: PrecipitationBand): nat {
    match b
    case NoPrecipitation => 0
    case LightPrecipitation => 1
    case ModeratePrecipitation => 2
    case HeavyPrecipitation => 3
  }

  /** More rain never lands in a lighter band. */
  lemma PrecipitationBandMonotone(a: int, b: int)
    requires 0 <= a <= b
    ensures PrecipitationRank(PrecipitationBandOf(a)) <= PrecipitationRank(PrecipitationBandOf(b))
  {
  }

  /** The temperature bands of the analysis. */
  datatype TemperatureBand = Freezing | Cold | Mild | Hot

  /**
    * The temperature `CASE`, over whole degrees Fahrenheit: freezing below 32, cold from 32
    * to 50, moderate above 50 up to 70, hot above 70.
    */
  function TemperatureBandOf(f: int): (b: TemperatureBand)
    ensures b == Freezing <==> f < 32
    ensures b == Cold <==> 32 <= f <= 50
    ensures b == Mild <==> 50 < f <= 70
    ensures b == Hot <==> 70 < f
  {
    if f < 32 then Freezing
    else if f <= 50 then Cold
    else if f <= 70 then Mild
    else Hot
  }

  function TemperatureLabel(b: TemperatureBand): string {
    match b
    case Freezing => "Freezing (<32°F)"
    case Cold => "Cold (32-50°F)"
    case Mild => "Moderate (50-70°F)"
    case Hot => "Hot (>70°F)"
  }

  function TemperatureRank(b: TemperatureBand): nat {
    match b
    case Freezing => 0
    case Cold => 1
    case Mild => 2
    case Hot => 3
  }

  /** A warmer day never lands in a colder band. */
  lemma TemperatureBandMonotone(a: int, b: int)
    requires a <= b
    ensures TemperatureRank(TemperatureBandOf(a)) <= TemperatureRank(TemperatureBandOf(b))
  {
  }

  /** Distinct bands have distinct labels, so grouping by category is grouping by band. */
  lemma LabelsApart(p: PrecipitationBand, q: PrecipitationBand, s: TemperatureBand, t: TemperatureBand)
    ensures PrecipitationLabel(p) == PrecipitationLabel(q) ==> p == q
    ensures TemperatureLabel(s) == TemperatureLabel(t) ==> s == t
  {
  }

  /** `ORDER BY precipitation_category` and `ORDER BY temperature_category` list the bands in the order of their labels' text. */
  lemma LabelOrder()
    ensures StrLe(PrecipitationLabel(HeavyPrecipitation), PrecipitationLabel(LightPrecipitation))
    ensures StrLe(PrecipitationLabel(LightPrecipitation), PrecipitationLabel(ModeratePrecipitation))
    ensures StrLe(PrecipitationLabel(ModeratePrecipitation), PrecipitationLabel(NoPrecipitation))
    ensures StrLe(TemperatureLabel(Cold), TemperatureLabel(Freezing))
    ensures StrLe(TemperatureLabel(Freezing), TemperatureLabel(Hot))
    ensures StrLe(TemperatureLabel(Hot), TemperatureLabel(Mild))
  {
  }

  /** `n` copies of `x`. */
  function Repeat(x: string, n: nat): (r: seq<string>)
    ensures |r| == n
    ensures forall l :: multiset(r)[l] == if l == x then n else 0
  {
    if n == 0 then [] else Repeat(x, n - 1) + [x]
  }

  /**
    * The reference count of the join `weather_data w JOIN crime_reports c ON w.date = c.date`:
    * the number of (weather record, crime) pairs on the same day whose weather has category `l`.
    */
  function BandPairs(ws: seq<WeatherRecord>, dates: seq<Day>, category: WeatherRecord -> string, l: string): (n: nat)
    ensures n > 0 ==> exists k :: 0 <= k < |ws| && category(ws[k]) == l
  {
    if ws == [] then 0
    else
      var n := (if category(ws[0]) == l then Count(dates, ws[0].date) else 0) + BandPairs(ws[1..], dates, category, l);
      assert BandPairs(ws[1..], dates, category, l) > 0 ==> exists k :: 0 <= k < |ws| && category(ws[k]) == l by {
        if BandPairs(ws[1..], dates, category, l) > 0 {
          var k :| 0 <= k < |ws[1..]| && category(ws[1..][k]) == l;
          assert category(ws[k + 1]) == l;
        }
      }
      n
  }

  /** The category of every row of the join, weather record by weather record. */
  function JoinLabels(ws: seq<WeatherRecord>, dates: seq<Day>, category: WeatherRecord -> string): (ls: seq<string>)
    ensures forall l :: Count(ls, l) == BandPairs(ws, dates, category, l)
  {
    if ws == [] then []
    else
      var first := Repeat(category(ws[0]), Count(dates, ws[0].date));
      var rest := JoinLabels(ws[1..], dates, category);
      assert forall l :: multiset(first + rest)[l] == multiset(first)[l] + multiset(rest)[l];
      first + rest
  }

  predicate ByLabel(a: (string, nat), b: (string, nat)) {
    StrLe(a.0, b.0)
  }

  lemma ByLabelIsTotal()
    ensures TotalPreorder(ByLabel)
  {
    forall a: (string, nat), b: (string, nat) ensures ByLabel(a, b) || ByLabel(b, a) {
      StrLeTotal(a.0, b.0);
    }
    forall a: (string, nat), b: (string, nat), c: (string, nat) | ByLabel(a, b) && ByLabel(b, c) ensures ByLabel(a, c) {
      StrLeTransitive(a.0, b.0, c.0);
    }
  }

  /**
    * The crimes joined with the weather of their day, grouped by the weather's category and
    * in order of the category's text: one entry per category that occurs, with the number
    * of joined pairs in it.
    */
  function CrimesByCategory(db: Database, category: WeatherRecord -> string): (g: seq<(string, nat)>)
    ensures Sorted(g, ByLabel)
    ensures forall i, j :: 0 <= i < j < |g| ==> g[i].0 != g[j].0
    ensures forall e :: e in g ==> e.1 == BandPairs(db.weatherData, CrimeDates(db), category, e.0) && e.1 >= 1
    ensures forall l :: BandPairs(db.weatherData, CrimeDates(db), category, l) > 0 ==> exists e :: e in g && e.0 == l
  {
    var ls := JoinLabels(db.weatherData, CrimeDates(db), category);
    var groups := GroupCount(ls);
    ByLabelIsTotal();
    SortBySorted(groups, ByLabel);
    var g := SortBy(groups, ByLabel);
    ReorderedGroups(ls, g);
    assert forall l :: BandPairs(db.weatherData, CrimeDates(db), category, l) > 0 ==> l in ls by {
      forall l | BandPairs(db.weatherData, CrimeDates(db), category, l) > 0 ensures l in ls {
        assert Count(ls, l) > 0;
      }
    }
    g
  }

  function PrecipitationCategory(hundredthsOf: string -> int): WeatherRecord -> string {
    (w: WeatherRecord) => PrecipitationLabel(PrecipitationBandOf(hundredthsOf(w.precipitation)))
  }

  function TemperatureCategory(degreesOf: string -> int): WeatherRecord -> string {
    (w: WeatherRecord) => TemperatureLabel(TemperatureBandOf(degreesOf(w.temperature)))
  }

  /**
    * `precipitationAnalysis`: the crimes counted by the precipitation band of their day's
    * weather, one entry per band that has joined crimes, each band a label of the `CASE`;
    * `hundredthsOf` stands for the `CAST` of the text without its unit.
    */
  function PrecipitationAnalysis(db: Database, hundredthsOf: string -> int): (g: seq<(string, nat)>)
    ensures Sorted(g, ByLabel)
    ensures forall e :: e in g ==> exists b :: e.0 == PrecipitationLabel(b)
    ensures forall e :: e in g ==> e.1 == BandPairs(db.weatherData, CrimeDates(db), PrecipitationCategory(hundredthsOf), e.0)
    ensures forall i, j :: 0 <= i < j < |g| ==> g[i].0 != g[j].0
    ensures forall l :: BandPairs(db.weatherData, CrimeDates(db), PrecipitationCategory(hundredthsOf), l) > 0 ==> exists e :: e in g && e.0 == l
  {
    var category := PrecipitationCategory(hundredthsOf);
    var g := CrimesByCategory(db, category);
    assert forall e :: e in g ==> exists b :: e.0 == PrecipitationLabel(b) by {
      forall e | e in g ensures exists b :: e.0 == PrecipitationLabel(b) {
        var k :| 0 <= k < |db.weatherData| && category(db.weatherData[k]) == e.0;
        assert e.0 == PrecipitationLabel(PrecipitationBandOf(hundredthsOf(db.weatherData[k].precipitation)));
      }
    }
    g
  }

  /** `temperatureAnalysis`, the same over the temperature bands; `degreesOf` stands for the `CAST`. */
  function TemperatureAnalysis(db: Database, degreesOf: string -> int): (g: seq<(string, nat)>)
    ensures Sorted(g, ByLabel)
    ensures forall e :: e in g ==> exists b :: e.0 == TemperatureLabel(b)
    ensures forall e :: e in g ==> e.1 == BandPairs(db.weatherData, CrimeDates(db), TemperatureCategory(degreesOf), e.0)
    ensures forall i, j :: 0 <= i < j < |g| ==> g[i].0 != g[j].0
    ensures forall l :: BandPairs(db.weatherData, CrimeDates(db), TemperatureCategory(degreesOf), l) > 0 ==> exists e :: e in g && e.0 == l
  {
    var category := TemperatureCategory(degreesOf);
    var g := CrimesByCategory(db, category);
    assert forall e :: e in g ==> exists b :: e.0 == TemperatureLabel(b) by {
      forall e | e in g ensures exists b :: e.0 == TemperatureLabel(b) {
        var k :| 0 <= k < |db.weatherData| && category(db.weatherData[k]) == e.0;
        assert e.0 == TemperatureLabel(TemperatureBandOf(degreesOf(db.weatherData[k].temperature)));
      }
    }
    g
  }
}
