/**
  * The request parameters of the listing endpoints and the `WHERE` conditions the handlers
  * derive from them. Each handler starts from an unfiltered select and, for every parameter
  * that is set, reassigns the query with one more `.where(...)` call; the sequence of those
  * calls is what the model records. What a chain of `.where` calls means is decided by the
  * query-builder library, which is not part of this model, so it is the named parameter
  * `WhereRule`: either every condition applies (`Conjoin`) or the last call replaces the
  * earlier ones (`LastWins`).
  */
module Query {
  import opened Wrappers
  import opened Text
  import opened SqlLike
  import opened Schema

  /** A query-string or body parameter: absent, or the text that was sent. */
  type Param = Option<string>

  /** JavaScript truthiness of a string parameter: present and not empty. */
  predicate Truthy(p: Param) {
    p.Some? && p.value != ""
  }

  /**
    * `if (p && p !== sentinel)`: a category filter is applied when the parameter is truthy
    * and is not the "all" value of its select box. The export endpoint has no sentinel.
    */
  predicate Applies(p: Param, sentinel: Option<string>) {
    Truthy(p) && (sentinel.None? || p.value != sentinel.value)
  }

  /** One `.where(...)` argument over rows of some table whose text columns are `Col`. */
  datatype Cond<Col> =
    | Equals(column: Col, value: string)     // eq(column, value)
    | Between(start: Day, end: Day)          // and(gte(date, start), lte(date, end))
    | AnyLike(columns: seq<Col>, pattern: string)  // or(like(c1, p), like(c2, p), ...)

  /** How the query builder combines repeated `.where` calls. */
  datatype WhereRule = Conjoin | LastWins

  /** The conditions that end up in the statement's `WHERE` clause. */
  function Effective<Col>(wheres: seq<Cond<Col>>, rule: WhereRule): (e: seq<Cond<Col>>)
    ensures rule == Conjoin ==> e == wheres
    ensures rule == LastWins ==> e == if wheres == [] then [] else [wheres[|wheres| - 1]]
  {
    match rule
    case Conjoin => wheres
    case LastWins => if wheres == [] then [] else [wheres[|wheres| - 1]]
  }

  /** `value LIKE pattern` in a `WHERE` clause: a NULL value is never selected. */
  predicate LikeHolds(value: Option<string>, pattern: string)
    requires WellFormed(pattern)
  {
    value.Some? && Matches(value.value, pattern)
  }

  /**
    * Whether row `r` satisfies `c`; `text` reads a text column (None for a NULL from an
    * outer join) and `date` the row's date column.
    */
  predicate Holds<R, Col>(c: Cond<Col>, r: R, text: (R, Col) -> Option<string>, date: R -> Day) {
    match c
    case Equals(col, v) => text(r, col) == Some(v)
    case Between(lo, hi) => lo <= date(r) <= hi
    case AnyLike(cols, pat) => WellFormed(pat) && exists i :: 0 <= i < |cols| && LikeHolds(text(r, cols[i]), pat)
  }

  /** Whether the statement built from `wheres` selects row `r`. */
  predicate Keeps<R, Col>(wheres: seq<Cond<Col>>, rule: WhereRule, r: R, text: (R, Col) -> Option<string>, date: R -> Day) {
    var e := Effective(wheres, rule);
    forall i :: 0 <= i < |e| ==> Holds(e[i], r, text, date)
  }

  /** Under `Conjoin` one more `.where` call narrows the selection by exactly that condition. */
  lemma KeepsConjoinAppend<R, Col>(w: seq<Cond<Col>>, c: Cond<Col>, r: R, text: (R, Col) -> Option<string>, date: R -> Day)
    ensures Keeps(w + [c], Conjoin, r, text, date) <==> Keeps(w, Conjoin, r, text, date) && Holds(c, r, text, date)
  {
    var e := w + [c];
    if Keeps(w, Conjoin, r, text, date) && Holds(c, r, text, date) {
      forall i | 0 <= i < |e| ensures Holds(e[i], r, text, date) {
        if i < |w| { assert e[i] == w[i]; }
      }
    }
    if Keeps(e, Conjoin, r, text, date) {
      assert Effective(e, Conjoin) == e;
      forall i | 0 <= i < |w| ensures Holds(w[i], r, text, date) {
        assert e[i] == w[i];
        assert Holds(e[i], r, text, date);
      }
      assert e[|w|] == c;
    }
  }

  /** Under `LastWins` the statement selects by the last condition alone. */
  lemma KeepsLastWins<R, Col>(w: seq<Cond<Col>>, r: R, text: (R, Col) -> Option<string>, date: R -> Day)
    ensures Keeps(w, LastWins, r, text, date) <==> w == [] || Holds(w[|w| - 1], r, text, date)
  {
    if w != [] {
      assert Effective(w, LastWins)[0] == w[|w| - 1];
    }
  }

  /** `" - "`, the separator between the two dates of a range. */
  const RangeSeparator: string := " - "

  /**
    * `const [startDate, endDate] = dateRange.split(' - ')`, used only when the parameter is
    * truthy and both pieces are non-empty: the start is the text before the leftmost
    * separator, the end the text after it up to the next separator or the end of the text.
    */
  function DateRangeBounds(p: Param): (b: Option<(string, string)>)
    ensures b.Some? ==> Truthy(p) && b.value.0 != "" && b.value.1 != ""
    ensures b.Some? ==> FirstOccurrence(p.value, RangeSeparator, |b.value.0|) && b.value.0 == p.value[..|b.value.0|]
    ensures b.Some? ==>
              var rest := p.value[|b.value.0| + |RangeSeparator|..];
              || (b.value.1 == rest && !Contains(rest, RangeSeparator))
              || (FirstOccurrence(rest, RangeSeparator, |b.value.1|) && b.value.1 == rest[..|b.value.1|])
    ensures b.None? && Truthy(p) ==> |Split(p.value, RangeSeparator)| < 2 || "" in Split(p.value, RangeSeparator)[..2]
  {
    if !Truthy(p) then None
    else
      var parts := Split(p.value, RangeSeparator);
      if |parts| >= 2 && parts[0] != "" && parts[1] != "" then
        FirstTwoPieces(p.value, RangeSeparator);
        Some((parts[0], parts[1]))
      else
        assert |parts| >= 2 ==> parts[..2] == [parts[0], parts[1]];
        None
  }

  /**
    * A date as a user types it into the range box: non-empty, and written either without
    * spaces ("2023-01-31") or without hyphens ("Jan 31, 2023"). No separator starts inside it.
    */
  predicate PlainDate(a: string) {
    a != "" && (' ' !in a || '-' !in a)
  }

  /** In `a - t`, with `a` a plain date, the leftmost separator is the one after `a`. */
  lemma PlainDateEndsAtSeparator(a: string, t: string)
    requires PlainDate(a)
    ensures FirstOccurrence(a + RangeSeparator + t, RangeSeparator, |a|)
  {
    var s := a + RangeSeparator + t;
    assert s[|a|..] == RangeSeparator + t;
    forall i | 0 <= i < |a| ensures !(RangeSeparator <= s[i..]) {
      if ' ' !in a {
        assert s[i..][0] == a[i] != RangeSeparator[0];
      } else if i + 1 < |a| {
        assert s[i..][1] == a[i + 1] != RangeSeparator[1];
      } else {
        assert s[i..][1] == RangeSeparator[0] != RangeSeparator[1];
      }
    }
  }

  /** A plain date holds no separator. */
  lemma PlainDateHasNoSeparator(a: string)
    requires PlainDate(a)
    ensures !Contains(a, RangeSeparator)
  {
    forall i | 0 <= i <= |a| ensures !(RangeSeparator <= a[i..]) {
      if i + 1 < |a| {
        if ' ' !in a {
          assert a[i..][0] == a[i] != RangeSeparator[0];
        } else {
          assert a[i..][1] == a[i + 1] != RangeSeparator[1];
        }
      }
    }
  }

  /** A range typed as "start - end", with plain dates, gives those two dates. */
  lemma {:induction false} DateRangeOfTwoDates(a: string, b: string)
    requires PlainDate(a) && PlainDate(b)
    ensures DateRangeBounds(Some(a + RangeSeparator + b)) == Some((a, b))
  {
    var s := a + RangeSeparator + b;
    PlainDateEndsAtSeparator(a, b);
    SplitAtFirst(s, RangeSeparator, |a|);
    assert s[..|a|] == a && s[|a| + |RangeSeparator|..] == b;
    PlainDateHasNoSeparator(b);
    SplitWithoutOccurrence(b, RangeSeparator);
  }

  /** "Jan 1, 2023 - Feb 1, 2023" is split between the two spelled-out dates. */
  lemma SpelledOutRange()
    ensures DateRangeBounds(Some("Jan 1, 2023 - Feb 1, 2023")) == Some(("Jan 1, 2023", "Feb 1, 2023"))
  {
    assert "Jan 1, 2023 - Feb 1, 2023" == "Jan 1, 2023" + RangeSeparator + "Feb 1, 2023";
    DateRangeOfTwoDates("Jan 1, 2023", "Feb 1, 2023");
  }

  /** The date range of a text whose first two pieces are non-empty is those two pieces. */
  lemma DateRangeOfPieces(s: string, a: string, b: string)
    requires |Split(s, RangeSeparator)| >= 2
    requires Split(s, RangeSeparator)[0] == a != "" && Split(s, RangeSeparator)[1] == b != ""
    ensures DateRangeBounds(Some(s)) == Some((a, b))
  {
  }

  /** Text after a second separator is ignored. */
  lemma {:induction false} DateRangeIgnoresExtraPieces(a: string, b: string, rest: string)
    requires PlainDate(a) && PlainDate(b)
    ensures DateRangeBounds(Some(a + RangeSeparator + b + RangeSeparator + rest)) == Some((a, b))
  {
    var s := a + RangeSeparator + b + RangeSeparator + rest;
    ExtraPiecesSplit(a, b, rest);
    DateRangeOfPieces(s, a, b);
  }

  lemma ExtraPiecesSplit(a: string, b: string, rest: string)
    requires PlainDate(a) && PlainDate(b)
    ensures var parts := Split(a + RangeSeparator + b + RangeSeparator + rest, RangeSeparator);
            |parts| >= 2 && parts[0] == a && parts[1] == b
  {
    var after := b + RangeSeparator + rest;
    assert a + RangeSeparator + b + RangeSeparator + rest == a + RangeSeparator + after;
    PlainDateEndsAtSeparator(a, after);
    PlainDateEndsAtSeparator(b, rest);
    SplitTwice(a, b, rest, RangeSeparator);
  }

  /** Without the separator there is no range, so no date filter. */
  lemma {:induction false} DateRangeNeedsSeparator(s: string)
    requires !Contains(s, RangeSeparator)
    ensures DateRangeBounds(Some(s)) == None
  {
    SplitWithoutOccurrence(s, RangeSeparator);
  }

  /** A range whose end is missing ("start - ") gives no date filter. */
  lemma {:induction false} DateRangeNeedsEnd(a: string)
    requires PlainDate(a)
    ensures DateRangeBounds(Some(a + RangeSeparator)) == None
  {
    assert a + RangeSeparator == a + RangeSeparator + "";
    PlainDateEndsAtSeparator(a, "");
    SplitAtFirst(a + RangeSeparator, RangeSeparator, |a|);
    assert (a + RangeSeparator)[|a| + |RangeSeparator|..] == "";
  }

  /** `if (p && p !== sentinel) query = query.where(eq(col, p))`. */
  function WhereEquals<Col>(w: seq<Cond<Col>>, col: Col, p: Param, sentinel: Option<string>): (w': seq<Cond<Col>>)
    ensures Applies(p, sentinel) ==> w' == w + [Equals(col, p.value)]
    ensures !Applies(p, sentinel) ==> w' == w
  {
    if Applies(p, sentinel) then w + [Equals(col, p.value)] else w
  }

  /** `if (dateRange) { ...split...; if (startDate && endDate) query = query.where(and(gte, lte)) }`. */
  function WhereDateRange<Col>(w: seq<Cond<Col>>, p: Param, toDay: string -> Day): (w': seq<Cond<Col>>)
    ensures DateRangeBounds(p).Some? ==>
      w' == w + [Between(toDay(DateRangeBounds(p).value.0), toDay(DateRangeBounds(p).value.1))]
    ensures DateRangeBounds(p).None? ==> w' == w
  {
    match DateRangeBounds(p)
    case Some((a, b)) => w + [Between(toDay(a), toDay(b))]
    case None => w
  }

  /** `if (search) query = query.where(or(like(c1, %search%), ...))`. */
  function WhereSearch<Col>(w: seq<Cond<Col>>, cols: seq<Col>, p: Param): (w': seq<Cond<Col>>)
    ensures Truthy(p) ==> w' == w + [AnyLike(cols, SearchPattern(p.value))]
    ensures !Truthy(p) ==> w' == w
  {
    if Truthy(p) then w + [AnyLike(cols, SearchPattern(p.value))] else w
  }

  /** The date filter as a reference predicate: no usable range, or the day lies inside it, both ends included. */
  predicate InRange(p: Param, toDay: string -> Day, d: Day) {
    DateRangeBounds(p).Some? ==> toDay(DateRangeBounds(p).value.0) <= d <= toDay(DateRangeBounds(p).value.1)
  }

  /** The search filter as a reference predicate: the pattern `%term%` matches one of the values. */
  predicate SearchHit(term: string, values: seq<Option<string>>) {
    WellFormed(SearchPattern(term)) &&
    exists i :: 0 <= i < |values| && values[i].Some? && Matches(values[i].value, SearchPattern(term))
  }

  /** For a term without `%`, `_` or `\`, a search hit is a value containing the term. */
  lemma SearchHitIsSubstring(term: string, values: seq<Option<string>>)
    requires Plain(term)
    ensures SearchHit(term, values) <==>
      exists i :: 0 <= i < |values| && values[i].Some? && Contains(values[i].value, term)
  {
    SearchPatternWellFormed(term);
    forall i | 0 <= i < |values| && values[i].Some?
      ensures Matches(values[i].value, SearchPattern(term)) <==> Contains(values[i].value, term)
    {
      SearchIsSubstring(values[i].value, term);
    }
  }

  /** An `AnyLike` condition over `cols` holds exactly when the search hits the row's values in those columns. */
  lemma {:induction false} AnyLikeIsSearchHit<R, Col>(term: string, cols: seq<Col>, r: R, text: (R, Col) -> Option<string>, date: R -> Day)
    ensures Holds(AnyLike(cols, SearchPattern(term)), r, text, date) <==>
      SearchHit(term, seq(|cols|, i requires 0 <= i < |cols| => text(r, cols[i])))
  {
    SearchPatternWellFormed(term);
    var values := seq(|cols|, i requires 0 <= i < |cols| => text(r, cols[i]));
    assert forall i :: 0 <= i < |cols| ==> values[i] == text(r, cols[i]);
  }

  /** The value of each of `cols` in row `r`. */
  function ColumnValues<R, Col>(r: R, cols: seq<Col>, text: (R, Col) -> Option<string>): (vs: seq<Option<string>>)
    ensures |vs| == |cols| && forall i :: 0 <= i < |cols| ==> vs[i] == text(r, cols[i])
  {
    seq(|cols|, i requires 0 <= i < |cols| => text(r, cols[i]))
  }

  /**
    * A category filter: under `Conjoin` it adds "the column equals the value" when it
    * applies; under `LastWins` it replaces everything before it when it applies.
    */
  lemma WhereEqualsSelects<R, Col>(w: seq<Cond<Col>>, col: Col, p: Param, sentinel: Option<string>,
                                   r: R, text: (R, Col) -> Option<string>, date: R -> Day)
    ensures Keeps(WhereEquals(w, col, p, sentinel), Conjoin, r, text, date) <==>
      Keeps(w, Conjoin, r, text, date) && (Applies(p, sentinel) ==> text(r, col) == Some(p.value))
    ensures Keeps(WhereEquals(w, col, p, sentinel), LastWins, r, text, date) <==>
      if Applies(p, sentinel) then text(r, col) == Some(p.value) else Keeps(w, LastWins, r, text, date)
  {
    if Applies(p, sentinel) {
      KeepsConjoinAppend(w, Equals(col, p.value), r, text, date);
      KeepsLastWins(w + [Equals(col, p.value)], r, text, date);
    }
  }

  /** A date range: when it parses, the row's day must lie between the two dates, both included. */
  lemma WhereDateRangeSelects<R, Col>(w: seq<Cond<Col>>, p: Param, toDay: string -> Day,
                                      r: R, text: (R, Col) -> Option<string>, date: R -> Day)
    ensures Keeps(WhereDateRange(w, p, toDay), Conjoin, r, text, date) <==>
      Keeps(w, Conjoin, r, text, date) && InRange(p, toDay, date(r))
    ensures Keeps(WhereDateRange(w, p, toDay), LastWins, r, text, date) <==>
      if DateRangeBounds(p).Some? then InRange(p, toDay, date(r)) else Keeps(w, LastWins, r, text, date)
  {
    if DateRangeBounds(p).Some? {
      var b := DateRangeBounds(p).value;
      var c: Cond<Col> := Between(toDay(b.0), toDay(b.1));
      KeepsConjoinAppend(w, c, r, text, date);
      KeepsLastWins(w + [c], r, text, date);
    }
  }

  /** A search: when the term is set, `%term%` must match the row's value in one of `cols`. */
  lemma WhereSearchSelects<R, Col>(w: seq<Cond<Col>>, cols: seq<Col>, p: Param,
                                   r: R, text: (R, Col) -> Option<string>, date: R -> Day)
    ensures Keeps(WhereSearch(w, cols, p), Conjoin, r, text, date) <==>
      Keeps(w, Conjoin, r, text, date) && (Truthy(p) ==> SearchHit(p.value, ColumnValues(r, cols, text)))
    ensures Keeps(WhereSearch(w, cols, p), LastWins, r, text, date) <==>
      if Truthy(p) then SearchHit(p.value, ColumnValues(r, cols, text)) else Keeps(w, LastWins, r, text, date)
  {
    if Truthy(p) {
      AnyLikeIsSearchHit(p.value, cols, r, text, date);
      assert ColumnValues(r, cols, text) == seq(|cols|, i requires 0 <= i < |cols| => text(r, cols[i]));
      KeepsConjoinAppend(w, AnyLike(cols, SearchPattern(p.value)), r, text, date);
      KeepsLastWins(w + [AnyLike(cols, SearchPattern(p.value))], r, text, date);
    }
  }

  /** With no `.where` call every row is selected, whatever the rule. */
  lemma NoWhereKeepsAll<R, Col>(rule: WhereRule, r: R, text: (R, Col) -> Option<string>, date: R -> Day)
    ensures Keeps([], rule, r, text, date)
  {
  }
}
