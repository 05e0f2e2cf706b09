# Crime Data Dashboard — a verified model of its data shaping and list paging

The Crime Data Dashboard is a read-only analytics web application over six tables
(crime reports, locations, police officers, police reports, social-media posts and
weather records). Its Express server answers JSON endpoints with listings, statistics
and a CSV export built by a SQL query builder; its React pages filter and page those
listings. This project models, in Dafny:

- the server's data shaping in `server/routes.ts`:
  - the listing filters of `/api/crimes`, `/api/export-crimes`, `/api/locations`,
    `/api/officers`, `/api/social-media` and `/api/weather`, each built by reassigning
    the query with one `.where(...)` call per parameter;
  - the sentinel values (`all_types`, `all_positions`, ...), the `" - "` date range and
    the `LIKE '%term%'` search;
  - the group counts and rounded percentages of the statistics endpoints;
  - the crime-detail lookup chain and its not-found case;
  - the CSV writer;
  - the weather–crime join with its date map;
  - the precipitation and temperature bands;
  - `formatDate`;
- the client pages' state:
  - the filter fields and query keys of the Social Media, Crime Reports, Weather,
    Officers and Locations pages and of the Recent Crimes card;
  - their paging: slice bounds, page counts, the prev/next buttons and the
    three-button page window;
  - the sentiment-by-month pivot of the Social Media page;
  - the in-place date sort behind the Weather page's line chart.

Tables are sequences of records (`Schema`), dates are whole day numbers, and each SQL
clause is a sequence operation (`Sequences`, `Grouping`): `WHERE` is a filter,
`ORDER BY` a stable sort specified only up to what SQL promises, `LIMIT` a prefix and
`GROUP BY ... COUNT(*)` one entry per distinct key. Each page component is a `class`
whose fields are its `useState` variables and whose methods are its event handlers.
The pivot's `reduce` and the map-filling `forEach` are methods with loops, proved
against the functions that specify them. The chart's `sort` is an in-place insertion
sort on an `array`.

The seed data holds 3 `Arrested`, 3 `No Arrest` and 4 `Pending` crimes
(`db/seed.ts:46-55`), so the arrest-status shares are 30/30/40, and `SeedVectors`
proves exactly those numbers.

## Model

| member | source | states |
|---|---|---|
| Query.KeepsConjoinAppend | server/routes.ts:218-246 | Under `Conjoin`, one more `.where(c)` narrows the selection by exactly `c` |
| Query.KeepsLastWins | server/routes.ts:218-246 | Under `LastWins`, the statement selects by the last condition alone, or keeps every row when there is none |
| Query.NoWhereKeepsAll | server/routes.ts:201-216 | With no `.where` call every row is selected, whatever the rule |
| Query.DateRangeBounds | server/routes.ts:226-236 | A range is used only when the parameter is truthy and splitting on `" - "` gives non-empty first and second pieces; the start is the text before the first `" - "`, the end is what follows up to the next `" - "` or the end of the text, and otherwise there is no date filter |
| Query.DateRangeOfTwoDates | server/routes.ts:226-236 | `"a - b"` gives the bounds `(a, b)` for any dates that cannot hold `" - "` (no space or no hyphen in them) |
| Query.DateRangeIgnoresExtraPieces | server/routes.ts:226-236 | `"a - b - rest"` gives `(a, b)`: pieces after the second separator are ignored |
| Query.DateRangeNeedsSeparator | server/routes.ts:226-236 | Text without `" - "` gives no date filter |
| Query.DateRangeNeedsEnd | server/routes.ts:226-236 | `"a - "` (no end date) gives no date filter |
| Query.SpelledOutRange | server/routes.ts:226-236 | `"Jan 1, 2023 - Feb 1, 2023"` gives the bounds `("Jan 1, 2023", "Feb 1, 2023")`: dates with spaces and commas split correctly |
| Query.PlainDateEndsAtSeparator | server/routes.ts:227 | A date that cannot hold `" - "` ends at the first separator of `"a - ..."` |
| Query.WhereEqualsSelects | server/routes.ts:218-224 | The category filter keeps exactly the rows whose column equals the value (when it applies), under either combination rule |
| Query.WhereDateRangeSelects | server/routes.ts:226-236 | The date filter keeps exactly the rows with `start <= date <= end`, both ends included, under either rule |
| Query.WhereSearchSelects | server/routes.ts:238-246 | The search filter keeps exactly the rows where `%term%` matches one of the columns, under either rule |
| Query.SearchHitIsSubstring | server/routes.ts:238-246 | For a term without `%`, `_` or `\`, a search hit is a column value that contains the term; a NULL column never hits |
| Query.AnyLikeIsSearchHit | server/routes.ts:795-797 | The OR of `like(...)` conditions holds exactly when the pattern matches one of the row's column values |
| SqlLike.SearchPatternWellFormed | server/routes.ts:238-246 | Whatever the user types, `%term%` is a pattern PostgreSQL accepts |
| SqlLike.WellFormedUnlessTrailingEscape | server/routes.ts:238-246 | Any non-empty pattern not ending in a backslash is well formed |
| SqlLike.PercentMatchesAll | server/routes.ts:238-246 | `%` alone matches every string |
| SqlLike.PlainThenPercent | server/routes.ts:238-246 | `term%` with a plain term matches exactly the strings that start with the term |
| SqlLike.PercentThen | server/routes.ts:238-246 | A leading `%` matches the rest of the pattern against any suffix |
| SqlLike.SearchIsSubstring | server/routes.ts:238-246 | For a plain term, `s LIKE '%term%'` holds exactly when `term` occurs in `s` |
| SqlLike.UnderscoreIsAWildcard | server/routes.ts:238-246 | `_` in the search is not escaped: the term `a_c` selects `abc`, which does not contain it |
| Text.Split | server/routes.ts:227 | `split` always returns at least one piece |
| Text.JoinSplit | server/routes.ts:227 | Joining the pieces of a split with the separator gives back the text |
| Text.SplitJoin | server/routes.ts:227 | Splitting pieces that were joined, none holding the separator's first character, gives back the pieces |
| Text.SplitWithoutSeparator | server/routes.ts:227 | A text without the separator's first character is one piece |
| Text.SplitWithoutOccurrence | server/routes.ts:227 | A text in which the separator does not occur is one piece |
| Text.SplitAfter | server/routes.ts:227 | `a + sep + b`, with `a` free of the separator's first character, splits into `a` and then the pieces of `b` |
| Text.SplitFirstTwo | server/routes.ts:227 | The first two pieces, with the separator between them, start the text |
| Text.SplitFirstPiece | server/routes.ts:791 | With a one-character separator, the first piece is the longest prefix without that character |
| Text.SplitAtFirst | server/routes.ts:227 | Splitting at the first occurrence of the separator gives the text before it, then the pieces of the text after it |
| Text.SplitAtLeftmost | server/routes.ts:227 | A text that contains the separator has a first occurrence, and splits there |
| Text.FirstTwoPieces | server/routes.ts:227 | With two pieces or more, the first piece is the text before the first separator and the second runs from there to the next separator or the end of the text |
| Text.StrLeTotal | server/routes.ts:515 | Character-code order on names compares any two strings |
| Text.StrLeTransitive | server/routes.ts:515 | Character-code order is transitive |
| Text.StrLeAntisymmetric | server/routes.ts:515 | Two strings each no greater than the other are equal |
| Sequences.Filter | server/routes.ts:218-246 | `WHERE`: each row kept as often as it is stored when it satisfies the condition, never otherwise |
| Sequences.FilterMembership | server/routes.ts:218-246 | A row is in the result exactly when it is in the table and satisfies the condition |
| Sequences.FilterKeepsAll | server/routes.ts:201-216 | A condition every row satisfies changes nothing |
| Sequences.Insert | server/routes.ts:248 | Inserting adds exactly one copy of the element |
| Sequences.InsertSorted | server/routes.ts:248 | Inserting into a sorted run under a total preorder keeps it sorted |
| Sequences.InsertSplit | server/routes.ts:248 | The element lands just before the first element it may precede |
| Sequences.SortBy | server/routes.ts:248 | `ORDER BY` returns its input reordered |
| Sequences.SortBySorted | server/routes.ts:248 | Under a total preorder the result is sorted and a permutation of the input |
| Sequences.SelectOrdered | server/routes.ts:197-254 | `WHERE ... ORDER BY`: sorted, and each row as often as stored when it is selected, never otherwise |
| Sequences.Take | server/routes.ts:186-187 | `LIMIT k`: the first `k` rows, or all when fewer |
| Sequences.TakeOfSorted | server/routes.ts:186-187 | `LIMIT` splits the rows into kept and left out; over a sorted result the kept rows stay sorted and precede every row left out |
| Sequences.TopBy | server/routes.ts:186-187 | `ORDER BY ... LIMIT k`: `min(n, k)` rows, sorted, and no row left out comes before a row kept |
| Sequences.FindFirst | server/routes.ts:262-277 | `LIMIT 1` lookup: none exactly when no row matches; otherwise a matching row with no matching row before it |
| Sequences.InsertedAt | client/src/pages/Weather.tsx:243 | One in-place insertion step (shift left, drop the element in) leaves the suffix equal to `Insert` of the element into the rest |
| Sequences.SortByFront | client/src/pages/Weather.tsx:243 | Sorting from position `i` is inserting element `i` into the sorted elements after it |
| Grouping.Dedup | server/routes.ts:77-93 | The distinct keys: each once, and exactly the keys that occur |
| Grouping.DedupFirstAppearance | server/routes.ts:77-93 | The distinct keys come in order of first appearance |
| Grouping.GroupCountGroups | server/routes.ts:77-93 | Group keys are distinct, exactly the keys that occur, and every group is non-empty |
| Grouping.GroupCountTotal | server/routes.ts:77-93 | The group counts add up to the number of rows grouped |
| Grouping.ReorderedGroups | server/routes.ts:84-86 | Any reordering of the groups (as `ORDER BY count DESC` gives) keeps one entry per key, with its count |
| Grouping.PermutedKeysDistinct | server/routes.ts:84-86 | Reordering groups with distinct keys keeps the keys distinct |
| Grouping.DistinctOnce | server/routes.ts:84-86 | An entry of a grouping with distinct keys occurs in it once |
| Grouping.CountOf | server/routes.ts:438-447 | `LEFT JOIN` of a `GROUP BY` count: NULL exactly when no row has the key, else the number of such rows (at least 1) |
| Grouping.CountOfOrZero | client/src/pages/Officers.tsx:241 | A joined count shown with `\|\| 0` is the number of rows with the key, 0 included |
| Grouping.RoundedPercent | server/routes.ts:109-113 | `Math.round(count / total * 100)`: null (from `NaN`) exactly when there are no rows; otherwise the nearest whole percent, halves up, at most 100 for a part of the total |
| Grouping.NearestPercent | server/routes.ts:33 | The integer formula `(200c + t) / 2t` is that nearest percent, non-negative, at most 100 for `c <= t` |
| Grouping.PercentagesNeedNotSumTo100 | server/routes.ts:109-113 | Nothing corrects rounding to a total of 100: three equal thirds give 33 each |
| Statistics.CrimeTypeCounts | server/routes.ts:77-93 | `/api/crime-types`: one entry per crime type with its count (at least 1), every type present, most frequent first |
| Statistics.MostCommonCrime | server/routes.ts:36-47 | With no crimes, `{type: 'None', count: 0}` and a null percentage; otherwise a type that occurs, with its count, no type more frequent, and its rounded share of all crimes |
| Statistics.DashboardStats | server/routes.ts:22-74 | `/api/stats`: the number of crimes; the rounded share of `Arrested` crimes (at most 100); the most common crime; and the crimes on or after the cutoff, never more than the total |
| Statistics.ShareCountsAreGroupCounts | server/routes.ts:109-113 | The shares carry the groups' counts unchanged |
| Statistics.ArrestStatusData | server/routes.ts:96-120 | `/api/arrest-status`: distinct statuses, exactly those that occur, each with its count (at least 1) and its rounded percentage (at most 100); the counts add up to the number of crimes |
| Statistics.SharesOfGroups | server/routes.ts:96-120 | The same for any list of statuses: distinct, exactly the statuses present, each counted, the counts adding up to the list's length |
| Statistics.ByPosition | server/routes.ts:527-533 | `officersByPosition`: distinct positions, exactly those held, each with its head count (at least 1); the counts add up to the number of officers |
| Statistics.LocationJoin | server/routes.ts:123-144 | `locations LEFT JOIN crime_reports` for one location: at least one row, each with the location's columns and either a crime at that location or NULLs when there is none; the crime ids of the rows are those of the crimes at the location, each as often as it occurs |
| Statistics.CrimeRowsAt | server/routes.ts:123-144 | The joined rows of one location: one per crime at that location, in table order, none when there is none |
| Statistics.LocationJoinsRows | server/routes.ts:123-144 | Every row of the join carries the columns of one of the locations |
| Statistics.EveryLocationJoined | server/routes.ts:123-144 | Every location has a row, whether or not a crime was reported there |
| Statistics.EveryCrimeJoinedOnce | server/routes.ts:123-144 | With unique location ids, the crime ids of the whole join are those of the crimes whose location exists, each exactly as often as it occurs in the crimes table |
| Statistics.CrimeLocations | server/routes.ts:123-144 | `/api/crime-locations`: at most 100 rows, exactly 100 when there are 100 locations or more, a prefix of the join; when the join fits and location ids are unique, every location appears and every crime at an existing location appears exactly once |
| Statistics.MonthlyCountsSorted | server/routes.ts:147-170 | Groups in `(year, month)` order give trend rows in chronological order |
| Statistics.CrimeTrends | server/routes.ts:147-170 | `/api/crime-trends`: chronological, one row per distinct month with a crime, each with that month's count (at least 1) |
| CrimeListing.OfficerName | server/routes.ts:212-215 | The officer column of the outer join: present exactly when an officer has the id, and then that officer's name |
| CrimeListing.JoinCrime | server/routes.ts:212-215 | A crime yields one row per police report filed for it, row `i` named after the officer of report `i`, or one row without officer when there is none; every row carries the crime's columns, and the address and location id of the crime's location exactly when it exists |
| CrimeListing.LocationOf | server/routes.ts:212-215 | `LEFT JOIN locations ON ...`: a location row exactly when one has the id, and then one with that id |
| CrimeListing.JoinCrimes | server/routes.ts:197-215 | The left joins never lose a crime: at least one row per crime |
| CrimeListing.JoinedRowsFromCrimes | server/routes.ts:212-215 | Every joined row carries the columns of one of the crimes |
| CrimeListing.EveryCrimeJoined | server/routes.ts:212-215 | Every crime has a joined row, reported or not |
| CrimeListing.NewestFirstIsTotal | server/routes.ts:248 | `ORDER BY date DESC` is a total preorder |
| CrimeListing.ListingWheres | server/routes.ts:216-246 | At most four `.where` calls; none exactly when no filter applies (sentinels excluded); a truthy search is the last one |
| CrimeListing.ExportWheres | server/routes.ts:374-402 | At most four `.where` calls; none exactly when no parameter is truthy and no usable range is sent; a truthy search is the last one |
| CrimeListing.BuildListingQuery | server/routes.ts:216-246 | The handler's filter block issues the type, status, date-range and search `.where` calls, each only when it applies, in that order |
| CrimeListing.BuildExportQuery | server/routes.ts:374-402 | The export's filter block issues the same calls, with any truthy type or status applied, sentinel or not |
| CrimeListing.ConjoinedFiltersSelect | server/routes.ts:216-246 | When every `.where` call applies, the filters keep exactly the rows every applied filter accepts |
| CrimeListing.LastFilterSelects | server/routes.ts:216-246 | When only the last `.where` call applies, the filters keep exactly the rows the last applied filter accepts (search, then date range, then status, then type) |
| CrimeListing.FiltersSelect | server/routes.ts:218-246 | The statement built selects exactly the rows the filters describe: every applied filter under `Conjoin`, the last applied one under `LastWins` |
| CrimeListing.Crimes | server/routes.ts:197-254 | `/api/crimes`: newest first, and each joined row as often as it is stored when the filters (with sentinels) select it, never otherwise |
| CrimeListing.ExportRows | server/routes.ts:353-404 | The export's rows: newest first, each joined row as often as stored when the filters (without sentinels) select it |
| CrimeListing.ExportTakesSentinelLiterally | server/routes.ts:374-380 | Sent `all_types`, the export filters on it literally and, when no crime has that type, returns no rows |
| CrimeListing.RecentRow | server/routes.ts:173-194 | A recent-crime row carries the crime's columns, and an address exactly when the crime's location exists, that location's address |
| CrimeListing.RecentCrimes | server/routes.ts:173-194 | `/api/recent-crimes`: `min(n, 10)` rows, newest first, and no crime left out is newer than one shown |
| CrimeDetail.CrimeById | server/routes.ts:262-277 | The crime with the id, or none exactly when no crime has it |
| CrimeDetail.LocationById | server/routes.ts:282-286 | The crime's location, or none exactly when no location has the id |
| CrimeDetail.ReportFor | server/routes.ts:289-298 | A police report filed for the crime, or none exactly when there is no such report |
| CrimeDetail.OfficerById | server/routes.ts:301-308 | The officer with the id, or none exactly when there is no such officer |
| CrimeDetail.WeatherOn | server/routes.ts:311-315 | A weather record of the crime's day, or none exactly when there is none |
| CrimeDetail.PostNear | server/routes.ts:318-333 | A post from the day before to the day after, or none exactly when there is none |
| CrimeDetail.GetCrimeDetail | server/routes.ts:257-350 | 404 exactly when the id is unknown, after the crime lookup alone; otherwise the lookups in the handler's order, the officer one only when a report exists, and the detail assembled from the crime and each optional record |
| CrimeDetail.OfficerNeedsReport | server/routes.ts:301-308 | A detail has an officer only with a police report, and it is that report's officer |
| CsvExport.EscapeQuotes | server/routes.ts:408-410 | Doubling quotes never shortens a text, leaves a text without quotes unchanged, and adds or removes no character other than `"` |
| CsvExport.ReadQuoted | server/routes.ts:408-410 | Reading one quoted field (the inverse of the writer) consumes at least its opening quote |
| CsvExport.ReadRecord | server/routes.ts:408-410 | Reading a line of quoted fields yields at least one field |
| CsvExport.ReadEscaped | server/routes.ts:408-410 | An escaped value and its closing quote read back as the value |
| CsvExport.ReadWrittenRecord | server/routes.ts:408-412 | A non-empty record written with every field escaped and quoted reads back as its fields |
| CsvExport.CsvRowIsWritten | server/routes.ts:408-410 | With no quote in the six unescaped fields, an exported row is its seven values written as a record |
| CsvExport.CsvRowReadsBack | server/routes.ts:408-410 | Such a row reads back as its seven values: id, date, description, type, status, address (`null` when missing) and officer (empty when missing) |
| CsvExport.QuoteInAddressBreaksRow | server/routes.ts:408-410 | An address holding a quote, which the writer does not double, gives a line that does not read as a record |
| CsvExport.QuotedAddressDoesNotRead | server/routes.ts:408-410 | The field of that counterexample closes early |
| CsvExport.CsvLines | server/routes.ts:407-412 | The CSV splits into the header line and one line per row (an empty line when there are no rows): no trailing newline |
| CsvExport.CsvRow | server/routes.ts:408-410 | A row's line holds a newline exactly when one of its seven values does |
| CsvExport.Csv | server/routes.ts:407-412 | The body starts with the header line and its newline, and is exactly that when there are no rows |
| CsvExport.HeaderLineIsOneLine | server/routes.ts:407 | The header holds neither a newline nor a quote |
| CsvExport.ExportCsv | server/routes.ts:353-421 | The export body starts with the header `Crime ID,Date,Description,Type,Status,Address,Officer`; when no exported value holds a newline, its lines are the header and then one line per exported row, in order |
| DateFormat.FormatDate | server/routes.ts:787-792 | The formatted date is the longest prefix of the ISO timestamp without a `T` |
| DateFormat.FormatDateOfTimestamp | server/routes.ts:787-792 | On `YYYY-MM-DD` + `T` + time, the formatted date is `YYYY-MM-DD` |
| LocationListing.LocationRows | server/routes.ts:438-447 | One row per location with its columns and its crime count, NULL when it has no crime |
| LocationListing.ByIdIsTotal | server/routes.ts:463 | `ORDER BY location_id` is a total preorder |
| LocationListing.BuildListingQuery | server/routes.ts:450-461 | The handler issues the address-type and search `.where` calls, each only when it applies |
| LocationListing.ListingWheres | server/routes.ts:450-461 | At most two `.where` calls; none exactly when no filter applies; a truthy search is the last one |
| LocationListing.FiltersSelect | server/routes.ts:450-461 | The statement selects exactly the rows the type and search filters describe, under either rule |
| LocationListing.Locations | server/routes.ts:424-469 | `/api/locations`: in id order, each location row as often as stored when selected, never otherwise |
| OfficerListing.OfficerRows | server/routes.ts:486-495 | One row per officer with their columns and case count, NULL when they filed no report |
| OfficerListing.ByNameIsTotal | server/routes.ts:515 | `ORDER BY name` is a total preorder |
| OfficerListing.BuildListingQuery | server/routes.ts:498-513 | The handler issues the position, area and search `.where` calls, each only when it applies |
| OfficerListing.ListingWheres | server/routes.ts:498-513 | At most three `.where` calls; none exactly when no filter applies; a truthy search is the last one |
| OfficerListing.FiltersSelect | server/routes.ts:498-513 | The statement selects exactly the officers the filters describe, under either rule |
| OfficerListing.Officers | server/routes.ts:472-521 | `/api/officers`: in name order, each officer row as often as stored when selected, never otherwise |
| OfficerListing.TopOfficers | server/routes.ts:536-546 | `topOfficers`: `min(n, 10)` officers, most cases first, and no officer left out has more cases than one shown |
| SocialMediaListing.BuildListingQuery | server/routes.ts:570-592 | The handler issues the sentiment, location, date-range and search `.where` calls, each only when it applies |
| SocialMediaListing.ListingWheres | server/routes.ts:570-592 | At most four `.where` calls; none exactly when no filter applies; a truthy search is the last one |
| SocialMediaListing.FiltersSelect | server/routes.ts:570-592 | The statement selects exactly the posts the filters describe, under either rule |
| SocialMediaListing.Posts | server/routes.ts:561-600 | `/api/social-media`: newest first, each post as often as stored when selected, never otherwise |
| SocialMediaListing.BySentiment | server/routes.ts:606-612 | `bySentiment`: distinct sentiments, exactly those of the posts, each counted (at least 1); the counts add up to the number of posts |
| SocialMediaListing.ByLocation | server/routes.ts:615-623 | `byLocation`: the ten largest location groups (or all when fewer), most posts first, none left out larger than one shown |
| SocialMediaListing.PostsOverTime | server/routes.ts:626-642 | `postsOverTime`: chronological, the groups reordered, each with its post count (at least 1) |
| WeatherListing.BuildListingQuery | server/routes.ts:667-687 | The handler issues the date-range and search `.where` calls, each only when it applies |
| WeatherListing.ListingWheres | server/routes.ts:667-687 | At most two `.where` calls; none exactly when neither a usable range nor a search is sent; a truthy search is the last one |
| WeatherListing.FiltersSelect | server/routes.ts:667-687 | The statement selects exactly the records the filters describe, under either rule |
| WeatherListing.Weather | server/routes.ts:658-695 | `/api/weather`: newest first, each record as often as stored when selected, never otherwise |
| WeatherCrime.DateMap | server/routes.ts:716-719 | The map's keys are exactly the formatted dates of the entries |
| WeatherCrime.DateMapLastWrite | server/routes.ts:716-719 | The value under a date is the count of the last entry with that formatted date |
| WeatherCrime.BuildDateMap | server/routes.ts:716-719 | The `forEach` over the entries fills the map `DateMap` describes |
| WeatherCrime.WeatherByDate | server/routes.ts:710-713 | The weather records, oldest first |
| WeatherCrime.CrimeCountsPerDay | server/routes.ts:698-731 | When distinct days format apart, row `i` of `weatherCrimeData` carries the date of the `i`-th weather record by date and the number of crimes reported on that same day |
| WeatherCrime.WeatherCrimeData | server/routes.ts:698-731 | One row per weather record, in `ORDER BY weather_data.date` order: row `i` carries the formatted date, temperature, precipitation and wind speed of the `i`-th record of `WeatherByDate`, a permutation of the stored records |
| WeatherCrime.PrecipitationBandOf | server/routes.ts:737-740 | Each amount, in hundredths of an inch, lands in exactly one band: 0 none, up to 0.20 light (0.20 included, and a negative amount too), up to 0.50 moderate (0.50 included), above that heavy |
| WeatherCrime.PrecipitationBandMonotone | server/routes.ts:737-740 | More rain never lands in a lighter band |
| WeatherCrime.TemperatureBandOf | server/routes.ts:757-760 | Each temperature lands in exactly one band: below 32 freezing, 32 to 50 cold, above 50 up to 70 moderate, above 70 hot |
| WeatherCrime.TemperatureBandMonotone | server/routes.ts:757-760 | A warmer day never lands in a colder band |
| WeatherCrime.LabelsApart | server/routes.ts:734-771 | Distinct bands have distinct labels, so grouping by label is grouping by band |
| WeatherCrime.LabelOrder | server/routes.ts:749-750 | `ORDER BY` the label lists Heavy, Light, Moderate, No Precipitation and Cold, Freezing, Hot, Moderate |
| WeatherCrime.BandPairs | server/routes.ts:743-746 | A label has joined pairs only when some weather record falls in it |
| WeatherCrime.JoinLabels | server/routes.ts:743-746 | The label of every row of `weather_data JOIN crime_reports ON date`, counted per label as the joined pairs |
| WeatherCrime.ByLabelIsTotal | server/routes.ts:749-750 | `ORDER BY` the label is a total preorder |
| WeatherCrime.CrimesByCategory | server/routes.ts:734-751 | In label order, one entry per label with joined crimes, each with the number of (weather, crime) pairs on the same day |
| WeatherCrime.PrecipitationAnalysis | server/routes.ts:734-751 | `precipitationAnalysis`: in label order, only band labels, each label once, each with its joined crime count, and every band with joined crimes listed |
| WeatherCrime.TemperatureAnalysis | server/routes.ts:754-771 | `temperatureAnalysis`: in label order, only band labels, each label once, each with its joined crime count, and every band with joined crimes listed |
| Paging.TotalPages | client/src/pages/SocialMedia.tsx:80 | `Math.ceil(n / perPage)`: the fewest pages that hold every record; 0 exactly when there are none |
| Paging.GuardedTotalPages | client/src/components/reports/CrimeReports.tsx:103 | With `\|\| 1`, at least one page: one page for no records, otherwise as above |
| Paging.SliceIndex | client/src/pages/SocialMedia.tsx:84 | Where `slice` starts or stops: an index within the list, negative indices counting from the end, clamped at both ends |
| Paging.JsSlice | client/src/pages/SocialMedia.tsx:84 | `slice(start, end)` is the run between the indices, and empty when `end` is not past `start` |
| Paging.PageItems | client/src/pages/SocialMedia.tsx:82-84 | A page never shows more than `perPage` records |
| Paging.PageItemsOfPage | client/src/pages/SocialMedia.tsx:80-84 | For `1 <= page <= totalPages`, the page is the records from `(page-1)*perPage` up to `min(page*perPage, n)`, and it is non-empty |
| Paging.PageItemsOutside | client/src/pages/SocialMedia.tsx:82-84 | Page 0 and the pages past the last show nothing |
| Paging.Prev | client/src/pages/SocialMedia.tsx:423-424 | The previous page is at least 1, and one less whenever there is a page before |
| Paging.Next | client/src/pages/SocialMedia.tsx:458-459 | The next page is at most the last, and one more whenever there is a page after |
| Paging.PagesPrefix | client/src/pages/SocialMedia.tsx:80-84 | The first `k` pages, one after another, are the first `min(k*perPage, n)` records |
| Paging.PagesConcatenate | client/src/pages/SocialMedia.tsx:80-84 | All pages in order give back the whole list: every record is on exactly one page |
| Paging.PrevClamps | client/src/pages/SocialMedia.tsx:423-424 | Prev moves one page back, never below 1, and changes nothing on page 1 where it is disabled |
| Paging.NextClamps | client/src/pages/SocialMedia.tsx:458-459 | Next moves one page on, never past the last page, and changes nothing on the last page where it is disabled |
| Paging.EmptyListNext | client/src/pages/SocialMedia.tsx:458-459 | With no records, Next is enabled on page 1 and moves to page 0; with the `\|\| 1` guard it is disabled and stays on page 1 |
| Paging.Window | client/src/pages/SocialMedia.tsx:430-436 | The rendered buttons are exactly the window entries that are at most `totalPages` |
| Paging.WindowInRange | client/src/pages/SocialMedia.tsx:430-436 | On a page that exists, the filter drops nothing, the current page has a button, and every button is a page within one of it |
| Paging.FirstPageRepeats | client/src/pages/SocialMedia.tsx:430-434 | On page 1 of two pages or more, the first two buttons both show page 1 |
| Paging.WindowButtonsExist | client/src/pages/SocialMedia.tsx:430-436 | Every rendered button leads to a page from 1 to the last; past the last page the current page has no button |
| Paging.FullWindowPastTheEnd | client/src/components/reports/CrimeReports.tsx:324-344 | Without the filter, page 5 of 2 shows buttons 4 and 5, both past the last page |
| Paging.AllPageButtons | client/src/components/dashboard/RecentCrimes.tsx:132-145 | A button for every page: exactly the pages 1 to `totalPages` |
| SocialMediaPage.DefaultFiltersSelectAll | client/src/pages/SocialMedia.tsx:28-34 | The initial filters select every post, under either rule |
| SocialMediaPage.SocialMediaState.constructor | client/src/pages/SocialMedia.tsx:28-34 | Sentinel sentiment and location, empty range, search and inputs, page 1 |
| SocialMediaPage.SocialMediaState.SelectSentiment | client/src/pages/SocialMedia.tsx:263 | The sentiment filter changes; nothing else, the page included |
| SocialMediaPage.SocialMediaState.SelectLocation | client/src/pages/SocialMedia.tsx:281 | The location filter changes; nothing else, the page included |
| SocialMediaPage.SocialMediaState.TypeDateRange | client/src/pages/SocialMedia.tsx:305 | Typing a range changes the input box only, not the query |
| SocialMediaPage.SocialMediaState.ApplyDateRange | client/src/pages/SocialMedia.tsx:41-43 | The typed range becomes the query's range; nothing else changes |
| SocialMediaPage.SocialMediaState.TypeSearch | client/src/pages/SocialMedia.tsx:335 | Typing a term changes the input box only, not the query |
| SocialMediaPage.SocialMediaState.ApplySearch | client/src/pages/SocialMedia.tsx:37-39 | The typed term becomes the query's search; nothing else changes |
| SocialMediaPage.SocialMediaState.ResetFilters | client/src/pages/SocialMedia.tsx:366-373 | Every filter and input back to its default; the page number is left as it was |
| SocialMediaPage.SocialMediaState.ClickPrev | client/src/pages/SocialMedia.tsx:423-424 | One page back, at least page 1; the filters and the text typed in the input boxes are kept |
| SocialMediaPage.SocialMediaState.ClickNext | client/src/pages/SocialMedia.tsx:458-459 | One page on, at most the last; with no posts page 1 goes to page 0; the filters and the input boxes are kept |
| SocialMediaPage.SocialMediaState.ClickPageButton | client/src/pages/SocialMedia.tsx:436-441 | A rendered page button sets the page it shows; the filters and the input boxes are kept |
| SocialMediaPage.SetSlot | client/src/pages/SocialMedia.tsx:95-101 | Writing a counter changes that counter to the count and no other, nor the month |
| SocialMediaPage.NewPoint | client/src/pages/SocialMedia.tsx:103-116 | A new point has the row's month, the row's count in its counter and 0 in the others |
| SocialMediaPage.FindMonth | client/src/pages/SocialMedia.tsx:93 | `acc.find` by month: the first point of that month, or none exactly when there is none |
| SocialMediaPage.FindMonthIndex | client/src/pages/SocialMedia.tsx:93 | The linear scan finds the point `FindMonth` describes |
| SocialMediaPage.GroupTimeSeries | client/src/pages/SocialMedia.tsx:92-121 | The `reduce` loop builds the pivot `Pivot` describes |
| SocialMediaPage.Pivot | client/src/pages/SocialMedia.tsx:92-121 | The fold never yields more points than there are rows |
| SocialMediaPage.PivotMonths | client/src/pages/SocialMedia.tsx:92-121 | The pivot has one point per distinct month, in order of first appearance |
| SocialMediaPage.StepMonths | client/src/pages/SocialMedia.tsx:92-116 | One step of the `reduce` appends a point for a month not seen yet and otherwise keeps the months as they are |
| SocialMediaPage.PivotCounts | client/src/pages/SocialMedia.tsx:95-116 | Each counter holds the count of the last row of its month and class (other sentiments are neutral), or 0 when there is none |
| SocialMediaPage.LastCountAbsent | client/src/pages/SocialMedia.tsx:104-109 | A counter that no row reaches stays 0 |
| SocialMediaPage.LaterRowOverwrites | client/src/pages/SocialMedia.tsx:95-101 | A second row for the same month and sentiment replaces the count instead of adding to it |
| CrimeReportsPage.NoSentinelSent | client/src/components/reports/CrimeReports.tsx:32-60 | Neither the query key nor the export body ever carries a sentinel type or status |
| CrimeReportsPage.SameSelection | client/src/components/reports/CrimeReports.tsx:32-60 | The listing with its sentinel checks and the export without them select the same rows from the same page state |
| CrimeReportsPage.ExportMatchesTable | client/src/components/reports/CrimeReports.tsx:55-60 | The export holds exactly the rows the table lists, each as often, whatever the filters, under either rule |
| CrimeReportsPage.NotAnArrayIsEmpty | client/src/components/reports/CrimeReports.tsx:100-107 | A non-array response shows an empty table on its single page |
| CrimeReportsPage.CrimeReportsState.constructor | client/src/components/reports/CrimeReports.tsx:13-19 | Sentinel filters (so no type or status sent), empty range and search, page 1 |
| CrimeReportsPage.CrimeReportsState.SelectCrimeType | client/src/components/reports/CrimeReports.tsx:121-124 | The type changes and the page goes back to 1; every other field is kept |
| CrimeReportsPage.CrimeReportsState.SelectArrestStatus | client/src/components/reports/CrimeReports.tsx:144-147 | The status changes and the page goes back to 1; every other field is kept |
| CrimeReportsPage.CrimeReportsState.TypeDateRange | client/src/components/reports/CrimeReports.tsx:169 | Typing a range changes neither the query key nor the export body |
| CrimeReportsPage.CrimeReportsState.ApplyDateRange | client/src/components/reports/CrimeReports.tsx:28-30 | The typed range becomes the requests' range; the page is kept |
| CrimeReportsPage.CrimeReportsState.TypeSearch | client/src/components/reports/CrimeReports.tsx:199 | Typing a term changes neither request |
| CrimeReportsPage.CrimeReportsState.ApplySearch | client/src/components/reports/CrimeReports.tsx:24-26 | The typed term becomes the requests' search; the page is kept |
| CrimeReportsPage.CrimeReportsState.ResetFilters | client/src/components/reports/CrimeReports.tsx:230-237 | Every filter and input back to its default; the page number is not touched |
| CrimeReportsPage.CrimeReportsState.ClickPrev | client/src/components/reports/CrimeReports.tsx:317-318 | One page back, at least page 1; the filters and the input boxes are kept |
| CrimeReportsPage.CrimeReportsState.ClickNext | client/src/components/reports/CrimeReports.tsx:349-350 | One page on, at most the guarded last page, never page 0; the filters and the input boxes are kept |
| CrimeReportsPage.CrimeReportsState.ClickPageButton | client/src/components/reports/CrimeReports.tsx:324-344 | Any of the `min(totalPages, 3)` buttons, rendered without the last-page check, sets the page it shows; the filters and the input boxes are kept |
| WeatherPage.DefaultFiltersSelectAll | client/src/pages/Weather.tsx:24-30 | The initial filters select every weather record, under either rule |
| WeatherPage.WeatherState.constructor | client/src/pages/Weather.tsx:24-26 | Empty range and search, page 1 |
| WeatherPage.WeatherState.TypeDateRange | client/src/pages/Weather.tsx:332 | Typing a range changes the query at once; the page is kept |
| WeatherPage.WeatherState.TypeSearch | client/src/pages/Weather.tsx:348 | Typing a term changes the query at once; the page is kept |
| WeatherPage.WeatherState.ClickPrev | client/src/pages/Weather.tsx:393 | One page back, at least page 1 |
| WeatherPage.WeatherState.ClickNext | client/src/pages/Weather.tsx:425-426 | One page on, at most the last; with no records page 1 goes to page 0 |
| WeatherPage.WeatherState.ClickPageButton | client/src/pages/Weather.tsx:400-422 | A rendered page button sets the page it shows |
| WeatherPage.ByTimeIsPreorder | client/src/pages/Weather.tsx:243 | The comparator by parsed time is a total preorder |
| WeatherPage.ChartSeriesEarliest | client/src/pages/Weather.tsx:243 | The chart's series is the 20 earliest rows (all when fewer), earliest first, none left out earlier than one shown |
| WeatherPage.SortByTime | client/src/pages/Weather.tsx:243 | The in-place sort leaves the array as the stable sort by time of its old contents |
| WeatherPage.InsertDown | client/src/pages/Weather.tsx:243 | One pass moves the row at `i` into place among the sorted rows after it, leaving the rows before `i` alone |
| WeatherPage.ShiftEarlier | client/src/pages/Weather.tsx:243 | The rows after `i` that are strictly earlier move one place left; the returned index is where the row at `i` belongs |
| WeatherPage.InsertedByTime | client/src/pages/Weather.tsx:243 | That shift with the row dropped in equals inserting it by time |
| WeatherPage.LineChartSeries | client/src/pages/Weather.tsx:243 | The array is left sorted by time and the series is its first 20 rows |
| OfficersPage.DefaultFiltersSelectAll | client/src/pages/Officers.tsx:20-26 | The initial filters, sentinels sent as they stand, select every officer, under either rule |
| OfficersPage.DisplayedCaseCount | client/src/pages/Officers.tsx:241 | The count a row shows is the number of reports the officer filed, 0 included, the same as the top-officers chart |
| OfficersPage.OfficersState.constructor | client/src/pages/Officers.tsx:20-23 | Sentinel position and area, empty search, page 1 |
| OfficersPage.OfficersState.SelectPosition | client/src/pages/Officers.tsx:148 | The position filter changes; the page is kept |
| OfficersPage.OfficersState.SelectArea | client/src/pages/Officers.tsx:165 | The area filter changes; the page is kept |
| OfficersPage.OfficersState.TypeSearch | client/src/pages/Officers.tsx:185 | The search changes at once; the page is kept |
| OfficersPage.OfficersState.ClickPrev | client/src/pages/Officers.tsx:254 | One page back, at least page 1 |
| OfficersPage.OfficersState.ClickNext | client/src/pages/Officers.tsx:286-287 | One page on, at most the last; with no officers page 1 goes to page 0 |
| OfficersPage.OfficersState.ClickPageButton | client/src/pages/Officers.tsx:261-283 | A rendered page button sets the page it shows |
| LocationsPage.DefaultFiltersSelectAll | client/src/pages/Locations.tsx:23-35 | The initial filters, the sentinel sent as it stands, select every location, under either rule |
| LocationsPage.DisplayedCrimeCount | client/src/pages/Locations.tsx:202 | The count a row shows is the number of crimes at the location, 0 included |
| LocationsPage.LocationsState.constructor | client/src/pages/Locations.tsx:23-25 | Sentinel address type, empty search, page 1 |
| LocationsPage.LocationsState.SelectAddressType | client/src/pages/Locations.tsx:129 | The address type changes; the page is kept |
| LocationsPage.LocationsState.TypeSearch | client/src/pages/Locations.tsx:148 | The search changes at once; the page is kept |
| LocationsPage.LocationsState.ClickPrev | client/src/pages/Locations.tsx:215 | One page back, at least page 1 |
| LocationsPage.LocationsState.ClickNext | client/src/pages/Locations.tsx:247-248 | One page on, at most the last; with no locations page 1 goes to page 0 |
| LocationsPage.LocationsState.ClickPageButton | client/src/pages/Locations.tsx:222-244 | A rendered page button sets the page it shows |
| RecentCrimesPage.AtMostTwoPages | client/src/components/dashboard/RecentCrimes.tsx:42-49 | Ten crimes at most, five a page: never more than two pages |
| RecentCrimesPage.EveryButtonShowsCrimes | client/src/components/dashboard/RecentCrimes.tsx:132-145 | Every page button leads to a page showing one to five crimes |
| RecentCrimesPage.RecentCrimesState.constructor | client/src/components/dashboard/RecentCrimes.tsx:12-14 | Page 1, no crime selected, dialog closed |
| RecentCrimesPage.RecentCrimesState.OpenCrimeDetails | client/src/components/dashboard/RecentCrimes.tsx:20-23 | The crime becomes the selected one and the dialog opens; details show exactly when the id is non-empty |
| RecentCrimesPage.RecentCrimesState.CloseDetails | client/src/components/dashboard/RecentCrimes.tsx:162-167 | The dialog closes and stops showing; the selection and page are kept |
| RecentCrimesPage.RecentCrimesState.ClickPrev | client/src/components/dashboard/RecentCrimes.tsx:125-126 | One page back, at least page 1 |
| RecentCrimesPage.RecentCrimesState.ClickNext | client/src/components/dashboard/RecentCrimes.tsx:150-152 | One page on, at most the last; with no crimes page 1 goes to page 0 |
| RecentCrimesPage.RecentCrimesState.ClickPageButton | client/src/components/dashboard/RecentCrimes.tsx:132-145 | Button `i` sets page `i + 1`, a page that exists |
| SeedVectors.SeedStatusList | db/seed.ts:46-55 | The seeded statuses, crime by crime |
| SeedVectors.SeedStatusCounts | db/seed.ts:46-55 | Four pending, three arrested, three without arrest, no other status |
| SeedVectors.SeedArrestRate | db/seed.ts:46-55 | On the seed the arrest rate is 30% |
| SeedVectors.SeedArrestShares | db/seed.ts:46-55 | On the seed the status shares are 40% pending and 30% each for the other two |
| SeedVectors.SeedC01Detail | db/seed.ts:46-123 | Crime `C01` is found with location `L01`, report `R01`, officer `PO_05`, weather `W01` and post `P01` |
| SeedVectors.OnlyPO05 | db/seed.ts:63-72 | The seeded officer with id `PO_05` is the one found |
| SeedVectors.SeedBands | db/seed.ts:114-123 | Seeded readings at the band edges: 0.2 in light, 0.5 in moderate, 70°F moderate, 28°F freezing |

## Left out

- HTTP plumbing is not modelled: request parsing, `res.status(...).json(...)`, response headers and the 500 responses of the `catch` blocks.
- The database engine and the query builder are not modelled. Query results are sequence operations over the tables.
- How repeated `.where` calls combine is decided by the query-builder library, which is not part of this model. It is the named parameter `WhereRule`, and every filter lemma is proved for both rules.
- Dates are modelled only abstractly:
  - dates are whole day numbers;
  - `new Date(text)` is the parameter `toDay`, `toISOString` is `iso`, and `getTime` is `timeOf`;
  - `EXTRACT`/`TO_CHAR` month bucketing is the parameter `monthOf`;
  - time zones, malformed date text and the month labels' text are not modelled.
- Statistics.DashboardStats: the "last 30 days" cutoff is a parameter, because it reads the clock.
- CrimeDetail.PostNear: the ±1-day window is taken on day numbers, not on timestamps.
- Floating-point values are modelled as integers:
  - `CAST(... AS float)` in the band queries is over fixed-point integers: hundredths of an inch (parameter `hundredthsOf`) and whole °F (`degreesOf`);
  - `Math.round` of a float quotient is exact integer round-half-up.
- Grouping.RoundedPercent: does not model binary floating-point error in `count / total * 100`; it states the exact nearest percent.
- `parseFloat` of the readings (`client/src/pages/Weather.tsx:75-81`, `305`) and the map's centre and coordinates (`client/src/pages/Locations.tsx:66-79`) are not modelled. They are float parsing feeding rendering only.
- SQL leaves the order of rows that tie under `ORDER BY` open. Sequences.SelectOrdered and Sequences.TopBy state only what SQL promises: sorted, the right rows, and the top rows before the rest. The model's own order is one admissible choice.
- Statistics.CrimeLocations: `LIMIT 100` without `ORDER BY` returns some 100 rows of the join; the model takes the first 100 in table order. That every crime appears exactly once is stated only when the whole join fits in 100 rows and location ids are unique.
- LocationListing.Locations: `ORDER BY locations.id` is stated in code-point order (`Text.StrLe`). PostgreSQL orders text by the database's collation, which can place `adam` before `Zed` where code-point order does not.
- OfficerListing.Officers: `ORDER BY policeOfficers.name` is stated in code-point order, with the same caveat about the database's collation.
- The `ORDER BY count DESC` of `/api/crime-types` is stated as a sorted reordering. The seed ties Theft and Assault at 3, and `MostCommonCrime` may return either.
- `Array.prototype.sort` is stable. WeatherPage.SortByTime is an insertion sort with exactly the stable result.
- The time parsing inside the comparator is a pure function `timeOf`, so `NaN` times are not modelled.
- CsvExport.CsvRowReadsBack: only the description has its quotes doubled, so the round trip is proved for rows whose other fields hold no quote. QuoteInAddressBreaksRow shows what happens otherwise.
- The CSV's blob download in the browser (`client/src/components/reports/CrimeReports.tsx:62-72`) is not modelled.
- React Query's caching, refetching and `retry` are not modelled.
- CrimeReportsPage.ExportMatchesTable: each page's query key (`Filters()`, `ListingKey`) is taken to reach the server as the request's query parameters, with undefined entries dropped. That is assumed of the default fetch function, which `client/src/App.tsx` imports from `client/src/lib/queryClient.ts`; that file is not part of this model, and if it sent only the first key entry, no filter would reach `/api/crimes` and the table would no longer match the export, which sends its body explicitly.
- Loading states and rendering are not modelled, including the "Showing x to y of n" text and all chart and map configuration.
- CrimeReportsPage.CrimeReportsState: the detail dialog's `selectedCrime`/`isModalOpen` fields are modelled once, on RecentCrimesPage.RecentCrimesState. The two components' handlers are the same.
- SocialMediaPage.GroupTimeSeries: the accumulator's points are values, and the loop rewrites the found point in the sequence. Two references to the same object are not modelled (the source never creates any).
- WeatherCrime.CrimeCountsPerDay: assumes that distinct days format to distinct date texts (`FormatsApart`), as `toISOString` on whole days does.
- `formatDate`'s `if (!date) return ''` branch is not modelled: every date column is `NOT NULL`, so a day is always present.
- `shared/schema.ts` is used only for the record fields. Constraints the database enforces (keys, `NOT NULL`) are not modelled, and the unused users table is left out. Where a proof needs the primary key of `locations`, it is a precondition (`UniqueLocationIds` in Statistics.EveryCrimeJoinedOnce).
- `db/seed.ts` is used only as test vectors (SeedVectors); the inserts themselves are not modelled.
