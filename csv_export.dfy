/**
  * The CSV body of `POST /api/export-crimes`: a fixed header line, then one line per
  * exported row, each row seven double-quoted fields. A quoted-field reader in the manner
  * of RFC 4180 states what the text means.
  */
module CsvExport {
  import opened Wrappers
  import opened Text
  import opened Schema
  import opened DateFormat
  import opened Query
  import opened CrimeListing

  /** `Crime ID,Date,Description,Type,Status,Address,Officer`. */
  const HeaderLine: string :=
    "Crime ID" + "," + "Date" + "," + "Description" + "," + "Type" + "," + "Status" + "," + "Address" + "," + "Officer"
  const Header: string := HeaderLine + "\n"

  /** `s.replace(/"/g, '""')`: every double quote doubled. */
  function EscapeQuotes(s: string): (e: string)
    ensures |e| >= |s|
    ensures '"' !in s ==> e == s
    ensures forall c :: c != '"' ==> (c in e <==> c in s)
  {
    if s == [] then ""
    else if s[0] == '"' then "\"\"" + EscapeQuotes(s[1..])
    else [s[0]] + EscapeQuotes(s[1..])
  }

  /** A field between double quotes, as the template literal writes it. */
  function Quote(s: string): string {
    "\"" + s + "\""
  }

  /**
    * Reads a quoted field's content, starting just after its opening quote: `""` stands for
    * one quote and a lone `"` closes the field. The value read and the text after the closing
    * quote, or `None` when the field is never closed.
    */
  function ReadQuoted(s: string): (r: Option<(string, string)>)
    ensures r.Some? ==> |r.value.1| < |s|
    decreases |s|
  {
    if s == [] then None
    else if s[0] == '"' then
      if |s| >= 2 && s[1] == '"' then
        match ReadQuoted(s[2..])
        case Some((v, rest)) => Some(("\"" + v, rest))
        case None => None
      else Some(("", s[1..]))
    else
      match ReadQuoted(s[1..])
      case Some((v, rest)) => Some(([s[0]] + v, rest))
      case None => None
  }

  /** A line of quoted fields separated by commas, read back into the field values. */
  function ReadRecord(line: string): (r: Option<seq<string>>)
    ensures r.Some? ==> |r.value| >= 1
    decreases |line|
  {
    if line == [] || line[0] != '"' then None
    else
      match ReadQuoted(line[1..])
      case None => None
      case Some((v, rest)) =>
        if rest == [] then Some([v])
        else if rest[0] != ',' then None
        else
          match ReadRecord(rest[1..])
          case None => None
          case Some(vs) => Some([v] + vs)
  }

  /** The escaped value followed by the closing quote reads back as the value. */
  lemma {:induction false} ReadEscaped(v: string, rest: string)
    requires rest == [] || rest[0] != '"'
    ensures ReadQuoted(EscapeQuotes(v) + "\"" + rest) == Some((v, rest))
    decreases |v|
  {
    if v == [] {
      assert EscapeQuotes(v) + "\"" + rest == "\"" + rest;
    } else {
      ReadEscaped(v[1..], rest);
      if v[0] == '"' {
        ReadEscapedQuote(v, rest);
      } else {
        ReadEscapedPlain(v, rest);
      }
    }
  }

  /** The step of `ReadEscaped` for a leading quote: written doubled, it is read back as one quote. */
  lemma ReadEscapedQuote(v: string, rest: string)
    requires v != [] && v[0] == '"'
    requires ReadQuoted(EscapeQuotes(v[1..]) + "\"" + rest) == Some((v[1..], rest))
    ensures ReadQuoted(EscapeQuotes(v) + "\"" + rest) == Some((v, rest))
  {
    var t := EscapeQuotes(v[1..]) + "\"" + rest;
    assert EscapeQuotes(v) + "\"" + rest == "\"\"" + t;
    ReadDoubledQuote(t);
    assert "\"" + v[1..] == v;
  }

  /** The step of `ReadEscaped` for another leading character: it is written and read back as itself. */
  lemma ReadEscapedPlain(v: string, rest: string)
    requires v != [] && v[0] != '"'
    requires ReadQuoted(EscapeQuotes(v[1..]) + "\"" + rest) == Some((v[1..], rest))
    ensures ReadQuoted(EscapeQuotes(v) + "\"" + rest) == Some((v, rest))
  {
    var t := EscapeQuotes(v[1..]) + "\"" + rest;
    assert EscapeQuotes(v) + "\"" + rest == [v[0]] + t;
    ReadPlainChar(v[0], t);
    assert [v[0]] + v[1..] == v;
  }

  /** A doubled quote reads as one quote in front of what follows. */
  lemma ReadDoubledQuote(t: string)
    ensures ReadQuoted("\"\"" + t) ==
            if ReadQuoted(t).None? then None else Some(("\"" + ReadQuoted(t).value.0, ReadQuoted(t).value.1))
  {
    var s := "\"\"" + t;
    assert s[0] == '"' && s[1] == '"' && s[2..] == t;
  }

  /** A character other than a quote is read as itself in front of what follows. */
  lemma ReadPlainChar(c: char, t: string)
    requires c != '"'
    ensures ReadQuoted([c] + t) ==
            if ReadQuoted(t).None? then None else Some(([c] + ReadQuoted(t).value.0, ReadQuoted(t).value.1))
  {
    var s := [c] + t;
    assert s[0] == c && s[1..] == t;
  }

  /** A quoted field, a comma, and the rest of the line. */
  function Cell(s: string, rest: string): string {
    Quote(s) + "," + rest
  }

  /** Every field quoted after its quotes are doubled, joined with commas. */
  function WriteRecord(fields: seq<string>): string {
    if |fields| == 0 then ""
    else if |fields| == 1 then Quote(EscapeQuotes(fields[0]))
    else Cell(EscapeQuotes(fields[0]), WriteRecord(fields[1..]))
  }

  /** Reading a written record gives back its fields. */
  lemma {:induction false} ReadWrittenRecord(fields: seq<string>)
    requires |fields| >= 1
    ensures ReadRecord(WriteRecord(fields)) == Some(fields)
    decreases |fields|
  {
    if |fields| == 1 {
      ReadRecordLast(fields[0]);
      assert fields == [fields[0]];
    } else {
      ReadWrittenRecord(fields[1..]);
      ReadRecordCons(fields[0], WriteRecord(fields[1..]));
      assert [fields[0]] + fields[1..] == fields;
    }
  }

  /** `${row.address}`: a missing address is written as the text `null`. */
  function AddressText(a: Option<string>): string {
    match a
    case Some(s) => s
    case None => "null"
  }

  /** `${row.officerName || ''}`: a missing officer is written as the empty string. */
  function OfficerText(n: Option<string>): string {
    match n
    case Some(s) => s
    case None => ""
  }

  /** One exported row's line: only the description has its quotes doubled. */
  function CsvRow(r: CrimeRow, iso: Day -> string): (line: string)
    ensures '\n' in line <==> exists k :: 0 <= k < |RowFields(r, iso)| && '\n' in RowFields(r, iso)[k]
  {
    var f := RowFields(r, iso);
    var line := Cell(f[0], Cell(f[1], Cell(EscapeQuotes(f[2]),
      Cell(f[3], Cell(f[4], Cell(f[5], Quote(f[6])))))));
    assert ('\n' in line) == ('\n' in f[0] || '\n' in f[1] || '\n' in f[2] || '\n' in f[3] ||
                              '\n' in f[4] || '\n' in f[5] || '\n' in f[6]);
    line
  }

  /** The seven values a row's line stands for. */
  function RowFields(r: CrimeRow, iso: Day -> string): seq<string> {
    [r.id, FormatDate(r.date, iso), r.description, r.typeOfCrime, r.arrestStatus,
     AddressText(r.address), OfficerText(r.officerName)]
  }

  /** A quoted field and a comma in front of the rest: the field's value, then whatever the rest reads as. */
  lemma ReadRecordCons(v: string, rest: string)
    ensures ReadRecord(Cell(EscapeQuotes(v), rest)) ==
            if ReadRecord(rest).None? then None else Some([v] + ReadRecord(rest).value)
  {
    var line := Cell(EscapeQuotes(v), rest);
    ReadEscaped(v, "," + rest);
    assert line[1..] == EscapeQuotes(v) + "\"" + ("," + rest);
    assert ("," + rest)[1..] == rest;
  }

  /** The last quoted field of a line reads as its value. */
  lemma ReadRecordLast(v: string)
    ensures ReadRecord(Quote(EscapeQuotes(v))) == Some([v])
  {
    ReadEscaped(v, "");
    assert Quote(EscapeQuotes(v))[1..] == EscapeQuotes(v) + "\"" + "";
  }

  /**
    * A row's line reads back as its seven values, provided none of the six fields written
    * without escaping holds a double quote.
    */
  lemma CsvRowReadsBack(r: CrimeRow, iso: Day -> string)
    requires forall k :: 0 <= k < 7 && k != 2 ==> '"' !in RowFields(r, iso)[k]
    ensures ReadRecord(CsvRow(r, iso)) == Some(RowFields(r, iso))
  {
    CsvRowIsWritten(r, iso);
    ReadWrittenRecord(RowFields(r, iso));
  }

  /** Without quotes in the six unescaped fields, the row's line is its values written as a record. */
  lemma CsvRowIsWritten(r: CrimeRow, iso: Day -> string)
    requires forall k :: 0 <= k < 7 && k != 2 ==> '"' !in RowFields(r, iso)[k]
    ensures CsvRow(r, iso) == WriteRecord(RowFields(r, iso))
  {
    var f := RowFields(r, iso);
    assert '"' !in f[0] && '"' !in f[1] && '"' !in f[3] && '"' !in f[4] && '"' !in f[5] && '"' !in f[6];
    assert WriteRecord(f[6..]) == Quote(f[6]);
    assert f[5..][1..] == f[6..];
    assert WriteRecord(f[5..]) == Cell(f[5], WriteRecord(f[6..]));
    assert f[4..][1..] == f[5..];
    assert WriteRecord(f[4..]) == Cell(f[4], WriteRecord(f[5..]));
    assert f[3..][1..] == f[4..];
    assert WriteRecord(f[3..]) == Cell(f[3], WriteRecord(f[4..]));
    assert f[2..][1..] == f[3..];
    assert WriteRecord(f[2..]) == Cell(EscapeQuotes(f[2]), WriteRecord(f[3..]));
    assert f[1..][1..] == f[2..];
    assert WriteRecord(f[1..]) == Cell(f[1], WriteRecord(f[2..]));
    assert WriteRecord(f) == Cell(f[0], WriteRecord(f[1..]));
  }

  /** The address field of the counterexample below: its quote closes the field after `5 `. */
  lemma QuotedAddressDoesNotRead()
    ensures ReadRecord(Cell("5 \"A\" St", Quote(""))) == None
  {
    var tail := Cell("5 \"A\" St", Quote(""));
    var rest := "A\" St\",\"\"";
    assert tail[1..] == EscapeQuotes("5 ") + "\"" + rest;
    ReadEscaped("5 ", rest);
  }

  /**
    * A double quote in a field written without escaping ends that field early, and the line
    * no longer reads back: an address `5 "A" St` makes the whole row unreadable.
    */
  lemma QuoteInAddressBreaksRow(iso: Day -> string)
    requires '"' !in FormatDate(0, iso)
    ensures var r := CrimeRow("C1", 0, "d", "t", "s", Some("5 \"A\" St"), Some("L1"), None);
            ReadRecord(CsvRow(r, iso)) == None
  {
    var r := CrimeRow("C1", 0, "d", "t", "s", Some("5 \"A\" St"), Some("L1"), None);
    var date := FormatDate(0, iso);
    var tail := Cell("5 \"A\" St", Quote(""));
    QuotedAddressDoesNotRead();
    assert EscapeQuotes("t") == "t" && EscapeQuotes("s") == "s" && EscapeQuotes("d") == "d" && EscapeQuotes("C1") == "C1";
    var l4 := Cell(EscapeQuotes("s"), tail);
    var l3 := Cell(EscapeQuotes("t"), l4);
    var l2 := Cell(EscapeQuotes("d"), l3);
    var l1 := Cell(EscapeQuotes(date), l2);
    assert CsvRow(r, iso) == Cell(EscapeQuotes("C1"), l1);
    ReadRecordCons("s", tail);
    ReadRecordCons("t", l4);
    ReadRecordCons("d", l3);
    ReadRecordCons(date, l2);
    ReadRecordCons("C1", l1);
  }

  function CsvRows(rows: seq<CrimeRow>, iso: Day -> string): (lines: seq<string>)
    ensures |lines| == |rows| && forall i :: 0 <= i < |rows| ==> lines[i] == CsvRow(rows[i], iso)
  {
    seq(|rows|, i requires 0 <= i < |rows| => CsvRow(rows[i], iso))
  }

  /** `header + csvRows.join('\n')`. */
  function Csv(rows: seq<CrimeRow>, iso: Day -> string): (csv: string)
    ensures Header <= csv
    ensures rows == [] ==> csv == Header
  {
    Header + Join(CsvRows(rows, iso), "\n")
  }

  /**
    * Split into lines, the CSV is the header line and then one line per row, in order; with
    * no rows the header's newline leaves one empty line. Holds when no value holds a line
    * break.
    */
  lemma CsvLines(rows: seq<CrimeRow>, iso: Day -> string)
    requires forall i :: 0 <= i < |rows| ==> '\n' !in CsvRow(rows[i], iso)
    ensures Split(Csv(rows, iso), "\n") == [HeaderLine] + (if rows == [] then [""] else CsvRows(rows, iso))
  {
    HeaderLineIsOneLine();
    var lines := CsvRows(rows, iso);
    if rows == [] {
      assert Csv(rows, iso) == HeaderLine + "\n" + "";
      SplitAfter(HeaderLine, "", "\n");
    } else {
      var parts := [HeaderLine] + lines;
      assert parts[1..] == lines;
      assert Join(parts, "\n") == Csv(rows, iso);
      assert forall k :: 0 <= k < |parts| ==> '\n' !in parts[k] by {
        forall k | 0 <= k < |parts| ensures '\n' !in parts[k] {
          if k > 0 {
            assert parts[k] == CsvRow(rows[k - 1], iso);
          }
        }
      }
      SplitJoin(parts, "\n");
    }
  }

  lemma HeaderLineIsOneLine()
    ensures '\n' !in HeaderLine && '"' !in HeaderLine
  {
  }

  /** The export response body: the rows of the export query, written as CSV. */
  function ExportCsv(db: Database, f: CrimeFilters, toDay: string -> Day, rule: WhereRule, iso: Day -> string): (csv: string)
    ensures Header <= csv
    ensures var rows := ExportRows(db, f, toDay, rule);
            (forall i :: 0 <= i < |rows| ==> '\n' !in CsvRow(rows[i], iso)) ==>
              Split(csv, "\n") == [HeaderLine] + (if rows == [] then [""] else CsvRows(rows, iso))
  {
    var rows := ExportRows(db, f, toDay, rule);
    if forall i :: 0 <= i < |rows| ==> '\n' !in CsvRow(rows[i], iso) then
      CsvLines(rows, iso);
      Csv(rows, iso)
    else
      Csv(rows, iso)
  }
}
