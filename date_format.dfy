/**
  * The server's `formatDate` helper: a date as its `YYYY-MM-DD` text, the part of the
  * ISO-8601 timestamp before the `T`.
  */
module DateFormat {
  import opened Text
  import opened Schema

  /**
    * `formatDate`: the part of the ISO timestamp before the first `T`, that is its longest
    * prefix without a `T`. `iso` stands for `new Date(date).toISOString()`.
    */
  function FormatDate(d: Day, iso: Day -> string): (s: string)
    ensures s <= iso(d)
    ensures 'T' !in s
    ensures |s| < |iso(d)| ==> iso(d)[|s|] == 'T'
  {
    SplitFirstPiece(iso(d), 'T');
    Split(iso(d), "T")[0]
  }

  /** On a timestamp `day + "T" + time` whose date part holds no `T`, the formatted date is that date part. */
  lemma FormatDateOfTimestamp(d: Day, iso: Day -> string, day: string, time: string)
    requires iso(d) == day + "T" + time && 'T' !in day
    ensures FormatDate(d, iso) == day
  {
    SplitAfter(day, time, "T");
  }
}
