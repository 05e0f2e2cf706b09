/**
  * The rows the seed script inserts, as a database value, and what the endpoints give on
  * it: the arrest shares, crime `C01`'s detail, and the bands of the weather readings.
  * Dates are day numbers counted from 2022-12-31, so 2023-01-05 is day 5.
  */
module SeedVectors {
  import opened Wrappers
  import opened Grouping
  import opened Schema
  import opened Statistics
  import opened CrimeDetail
  import opened WeatherCrime

  const L01: Location := Location("L01", "123 Main St", "40.7128,-74.0060", "Residential")

  const Locations: seq<Location> := [
    L01,
    Location("L02", "456 Elm Rd", "34.0522,-118.2437", "Commercial"),
    Location("L03", "789 Oak Ave", "41.8781,-87.6298", "Public"),
    Location("L04", "321 Pine Blvd", "39.9526,-75.1652", "Industrial"),
    Location("L05", "901 Maple St", "29.7604,-95.3698", "Residential"),
    Location("L06", "234 Cedar Rd", "37.7749,-122.4194", "Commercial"),
    Location("L07", "567 Spruce Ave", "42.3584,-71.0596", "Public"),
    Location("L08", "890 Walnut St", "35.7796,-78.6382", "Residential"),
    Location("L09", "345 Cherry Rd", "30.2672,-97.7431", "Commercial"),
    Location("L10", "678 Cypress Ave", "43.6532,-79.3832", "Public")]

  const C01: CrimeReport := CrimeReport("C01", 5, "Wallet stolen from parked car", "Theft", "No Arrest", "L01")

  const Crimes: seq<CrimeReport> := [
    C01,
    CrimeReport("C02", 12, "Bar fight resulting in injury", "Assault", "Arrested", "L02"),
    CrimeReport("C03", 49, "Store window smashed", "Vandalism", "Pending", "L03"),
    CrimeReport("C04", 74, "Cyber hacking incident", "Cyber Crime", "Pending", "L04"),
    CrimeReport("C05", 100, "Burglary at residential home", "Theft", "No Arrest", "L05"),
    CrimeReport("C06", 125, "Physical altercation in public", "Assault", "Arrested", "L06"),
    CrimeReport("C07", 152, "Graffiti on public property", "Vandalism", "Pending", "L07"),
    CrimeReport("C08", 185, "Theft of personal belongings", "Theft", "No Arrest", "L08"),
    CrimeReport("C09", 227, "Credit card fraud reported", "Fraud", "Pending", "L09"),
    CrimeReport("C10", 253, "Assault with a deadly weapon", "Assault", "Arrested", "L10")]

  const PO05: PoliceOfficer := PoliceOfficer("PO_05", "John Smith", "Officer", "City Center")

  const Officers: seq<PoliceOfficer> := [
    PoliceOfficer("PO_01", "James Carter", "Sergeant", "Downtown Precinct"),
    PoliceOfficer("PO_02", "Sarah Connor", "Lieutenant", "Financial District"),
    PoliceOfficer("PO_03", "Michael Rodriguez", "Officer", "Suburban Division"),
    PoliceOfficer("PO_04", "Emma Wilson", "Captain", "Special Investigations"),
    PO05,
    PoliceOfficer("PO_06", "Jane Doe", "Sergeant", "Downtown Precinct"),
    PoliceOfficer("PO_07", "Robert Johnson", "Lieutenant", "Suburban Division"),
    PoliceOfficer("PO_08", "Olivia Brown", "Officer", "Financial District"),
    PoliceOfficer("PO_09", "William Taylor", "Captain", "City Center"),
    PoliceOfficer("PO_10", "Ava Lee", "Sergeant", "Special Investigations")]

  const R01: PoliceReport := PoliceReport("R01", 7, "Suspect identified", "C01", "PO_05")

  const Reports: seq<PoliceReport> := [
    R01,
    PoliceReport("R02", 13, "Case closed with conviction", "C02", "PO_02"),
    PoliceReport("R03", 51, "Investigation ongoing", "C03", "PO_08"),
    PoliceReport("R04", 84, "Charges dropped", "C04", "PO_01"),
    PoliceReport("R05", 100, "Case closed", "C05", "PO_04"),
    PoliceReport("R06", 125, "Investigation ongoing", "C06", "PO_06"),
    PoliceReport("R07", 152, "Suspect arrested", "C07", "PO_03"),
    PoliceReport("R08", 185, "Case closed", "C08", "PO_09"),
    PoliceReport("R09", 227, "Investigation ongoing", "C09", "PO_02"),
    PoliceReport("R10", 253, "Charges filed", "C10", "PO_10")]

  const P01: SocialMediaPost := SocialMediaPost("P01", 6, "Concerns about safety in the area.", "Negative", "New York")

  const Posts: seq<SocialMediaPost> := [
    P01,
    SocialMediaPost("P02", 13, "Appreciation for local police efforts.", "Positive", "Los Angeles"),
    SocialMediaPost("P03", 50, "Report of suspicious activity.", "Neutral", "Chicago"),
    SocialMediaPost("P04", 84, "Complaints about crime rates.", "Negative", "Houston"),
    SocialMediaPost("P05", 100, "Praise for community policing.", "Positive", "Phoenix"),
    SocialMediaPost("P06", 125, "Discussion about crime prevention.", "Neutral", "New York"),
    SocialMediaPost("P07", 152, "Concerns about police response times.", "Negative", "Los Angeles"),
    SocialMediaPost("P08", 185, "Appreciation for police service.", "Positive", "Chicago"),
    SocialMediaPost("P09", 227, "Reports of increased crime.", "Negative", "Houston"),
    SocialMediaPost("P10", 253, "Community safety tips.", "Neutral", "Phoenix")]

  const W01: WeatherRecord := WeatherRecord("W01", 5, "0.2 in", "34°F", "12 mph")

  const Weather: seq<WeatherRecord> := [
    W01,
    WeatherRecord("W02", 12, "0.0 in", "28°F", "8 mph"),
    WeatherRecord("W03", 49, "0.5 in", "41°F", "15 mph"),
    WeatherRecord("W04", 74, "0.1 in", "45°F", "10 mph"),
    WeatherRecord("W05", 100, "0.3 in", "52°F", "18 mph"),
    WeatherRecord("W06", 125, "0.0 in", "60°F", "5 mph"),
    WeatherRecord("W07", 152, "0.4 in", "65°F", "12 mph"),
    WeatherRecord("W08", 185, "0.2 in", "75°F", "8 mph"),
    WeatherRecord("W09", 227, "0.6 in", "80°F", "15 mph"),
    WeatherRecord("W10", 253, "0.0 in", "70°F", "10 mph")]

  const Seed: Database := Database(Locations, Crimes, Officers, Reports, Posts, Weather)

  /** The seeded statuses, crime by crime: three without arrest, three arrests, four pending. */
  lemma SeedStatusList()
    ensures ArrestStatuses(Seed) ==
      ["No Arrest", "Arrested", "Pending", "Pending", "No Arrest", "Arrested", "Pending", "No Arrest", "Pending", "Arrested"]
  {
    var s := ArrestStatuses(Seed);
    assert s[0] == "No Arrest" && s[1] == "Arrested" && s[2] == "Pending" && s[3] == "Pending" && s[4] == "No Arrest";
    assert s[5] == "Arrested" && s[6] == "Pending" && s[7] == "No Arrest" && s[8] == "Pending" && s[9] == "Arrested";
  }

  /** How many seeded crimes have each status: four pending, three each arrested and without arrest, none other. */
  lemma SeedStatusCounts(status: string)
    ensures Count(ArrestStatuses(Seed), status) ==
      if status == "Pending" then 4 else if status == "Arrested" || status == "No Arrest" then 3 else 0
  {
    SeedStatusList();
    if status == "Pending" {
      PendingCount();
    } else if status == "Arrested" {
      ArrestedCount();
    } else if status == "No Arrest" {
      NoArrestCount();
    } else {
      assert status !in ArrestStatuses(Seed);
    }
  }

  /** The seeded statuses in two halves of five, over which each count is taken. */
  lemma SeedStatusHalves()
    ensures ArrestStatuses(Seed) ==
      ["No Arrest", "Arrested", "Pending", "Pending", "No Arrest"] + ["Arrested", "Pending", "No Arrest", "Pending", "Arrested"]
  {
    SeedStatusList();
  }

  lemma PendingCount()
    ensures Count(ArrestStatuses(Seed), "Pending") == 4
  {
    SeedStatusHalves();
    assert multiset(["No Arrest", "Arrested", "Pending", "Pending", "No Arrest"])["Pending"] == 2;
    assert multiset(["Arrested", "Pending", "No Arrest", "Pending", "Arrested"])["Pending"] == 2;
  }

  lemma ArrestedCount()
    ensures Count(ArrestStatuses(Seed), "Arrested") == 3
  {
    SeedStatusHalves();
    assert multiset(["No Arrest", "Arrested", "Pending", "Pending", "No Arrest"])["Arrested"] == 1;
    assert multiset(["Arrested", "Pending", "No Arrest", "Pending", "Arrested"])["Arrested"] == 2;
  }

  lemma NoArrestCount()
    ensures Count(ArrestStatuses(Seed), "No Arrest") == 3
  {
    SeedStatusHalves();
    assert multiset(["No Arrest", "Arrested", "Pending", "Pending", "No Arrest"])["No Arrest"] == 2;
    assert multiset(["Arrested", "Pending", "No Arrest", "Pending", "Arrested"])["No Arrest"] == 1;
  }

  /** On the seed the arrest rate is 30%. */
  lemma SeedArrestRate(cutoff: Day)
    ensures DashboardStats(Seed, cutoff).arrestRate == Some(30)
  {
    SeedStatusCounts(Arrested);
    assert RoundedPercent(3, 10) == Some(30);
  }

  /** The arrest-status shares on the seed: 40% pending, 30% for each of the other two statuses. */
  lemma SeedArrestShares()
    ensures forall i :: 0 <= i < |ArrestStatusData(Seed)| ==>
              var e := ArrestStatusData(Seed)[i];
              e.count == (if e.status == "Pending" then 4 else 3) &&
              e.percentage == Some(if e.status == "Pending" then 40 else 30)
  {
    var r := ArrestStatusData(Seed);
    assert RoundedPercent(3, 10) == Some(30);
    assert RoundedPercent(4, 10) == Some(40);
    forall i | 0 <= i < |r|
      ensures r[i].count == (if r[i].status == "Pending" then 4 else 3)
      ensures r[i].percentage == Some(if r[i].status == "Pending" then 40 else 30)
    {
      SeedStatusCounts(r[i].status);
    }
  }

  /** Crime `C01` is found, at location `L01`, with police report `R01`, officer `PO_05`, the weather `W01` and post `P01`. */
  lemma SeedC01Detail()
    ensures CrimeById(Seed, "C01") == Some(C01)
    ensures LocationById(Seed, C01.locationId) == Some(L01)
    ensures ReportFor(Seed, "C01") == Some(R01)
    ensures OfficerById(Seed, R01.officerId) == Some(PO05)
    ensures WeatherOn(Seed, C01.date) == Some(W01) && W01.temperature == "34°F"
    ensures PostNear(Seed, C01.date) == Some(P01)
  {
    assert Crimes[0] == C01 && Locations[0] == L01 && Reports[0] == R01 && Weather[0] == W01 && Posts[0] == P01;
    OnlyPO05();
  }

  /** No other seeded officer has the id `PO_05`. */
  lemma OnlyPO05()
    ensures OfficerById(Seed, "PO_05") == Some(PO05)
  {
    assert Officers[4] == PO05;
    assert forall k :: 0 <= k < |Officers| && k != 4 ==> Officers[k].id[4] != '5';
    assert forall o :: o in Officers && o.id == "PO_05" ==> o == PO05;
    var r := OfficerById(Seed, "PO_05");
    assert Seed.policeOfficers == Officers && PO05 in Officers;
    assert r.Some? && r.value in Officers && r.value.id == "PO_05";
  }

  /** The seeded readings at the band edges: 0.2 in is light, 0.5 in moderate, 70°F moderate, 28°F freezing. */
  lemma SeedBands()
    ensures PrecipitationBandOf(20) == LightPrecipitation && PrecipitationBandOf(50) == ModeratePrecipitation
    ensures PrecipitationBandOf(60) == HeavyPrecipitation && PrecipitationBandOf(0) == NoPrecipitation
    ensures TemperatureBandOf(70) == Mild && TemperatureBandOf(28) == Freezing && TemperatureBandOf(34) == Cold
  {
  }
}
