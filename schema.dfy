/**
  * The six tables of the dashboard's database, one record type per row. Dates are whole
  * day numbers; every column is `NOT NULL`, so only joins and lookups produce missing
  * values.
  */
module Schema {

  /** A calendar day, counted from any fixed origin. */
  type Day = int

  datatype Location = Location(id: string, address: string, geolocation: string, typeOfAddress: string)

  datatype CrimeReport = CrimeReport(
    id: string, date: Day, description: string, typeOfCrime: string, arrestStatus: string, locationId: string)

  datatype PoliceOfficer = PoliceOfficer(id: string, name: string, position: string, assignedArea: string)

  datatype PoliceReport = PoliceReport(id: string, date: Day, outcome: string, crimeId: string, officerId: string)

  datatype SocialMediaPost = SocialMediaPost(id: string, date: Day, content: string, sentiment: string, location: string)

  /** Precipitation, temperature and wind speed are stored as text such as "0.25 in", "68°F", "5 mph". */
  datatype WeatherRecord = WeatherRecord(id: string, date: Day, precipitation: string, temperature: string, windSpeed: string)

  /** The tables, each in the order the database happens to return its rows. */
  datatype Database = Database(
    locations: seq<Location>,
    crimeReports: seq<CrimeReport>,
    policeOfficers: seq<PoliceOfficer>,
    policeReports: seq<PoliceReport>,
    socialMedia: seq<SocialMediaPost>,
    weatherData: seq<WeatherRecord>)
}
