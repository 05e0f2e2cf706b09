/**
  * `GET /api/social-media`: the posts, filtered by sentiment, location, a date range and a
  * search over the content, newest first; and `GET /api/social-media-stats`: posts counted
  * by sentiment, by location (the ten busiest) and by month and sentiment.
  */
module SocialMediaListing {
  import opened Wrappers
  import opened Sequences
  import opened Grouping
  import opened Schema
  import opened Query

  datatype PostColumn = Sentiment | PostLocation | Content

  function PostText(p: SocialMediaPost, c: PostColumn): Option<string> {
    match c
    case Sentiment => Some(p.sentiment)
    case PostLocation => Some(p.location)
    case Content => Some(p.content)
  }

  function PostDate(p: SocialMediaPost): Day {
    p.date
  }

  const SearchColumns: seq<PostColumn> := [Content]

  const AllSentiments: string := "all_sentiments"
  const AllLocations: string := "all_locations"

  datatype PostFilters = PostFilters(sentiment: Param, location: Param, dateRange: Param, search: Param)

  /** `ORDER BY social_media.date DESC`. */
  predicate NewestFirst(a: SocialMediaPost, b: SocialMediaPost) {
    a.date >= b.date
  }

  /** The `.where` calls of the handler, in order. */
  function ListingWheres(f: PostFilters, toDay: string -> Day): (w: seq<Cond<PostColumn>>)
    ensures |w| <= 4
    ensures w == [] <==> !Applies(f.sentiment, Some(AllSentiments)) && !Applies(f.location, Some(AllLocations)) &&
                         DateRangeBounds(f.dateRange).None? && !Truthy(f.search)
    ensures Truthy(f.search) ==> w[|w| - 1] == AnyLike(SearchColumns, SqlLike.SearchPattern(f.search.value))
  {
    var w := WhereEquals([], Sentiment, f.sentiment, Some(AllSentiments));
    var w := WhereEquals(w, PostLocation, f.location, Some(AllLocations));
    var w := WhereDateRange(w, f.dateRange, toDay);
    WhereSearch(w, SearchColumns, f.search)
  }

  /** The handler's filter block. */
  method BuildListingQuery(f: PostFilters, toDay: string -> Day) returns (wheres: seq<Cond<PostColumn>>)
    ensures wheres == ListingWheres(f, toDay)
  {
    wheres := [];
    if Truthy(f.sentiment) && f.sentiment.value != AllSentiments {
      wheres := wheres + [Equals(Sentiment, f.sentiment.value)];
    }
    if Truthy(f.location) && f.location.value != AllLocations {
      wheres := wheres + [Equals(PostLocation, f.location.value)];
    }
    if Truthy(f.dateRange) {
      var bounds := DateRangeBounds(f.dateRange);
      if bounds.Some? {
        wheres := wheres + [Between(toDay(bounds.value.0), toDay(bounds.value.1))];
      }
    }
    if Truthy(f.search) {
      wheres := wheres + [AnyLike(SearchColumns, SqlLike.SearchPattern(f.search.value))];
    }
  }

  /** Reference meaning: sentiment and location match when chosen, the date is in range, and the content holds the term. */
  predicate Selected(rule: WhereRule, f: PostFilters, toDay: string -> Day, p: SocialMediaPost) {
    match rule
    case Conjoin =>
      && (Applies(f.sentiment, Some(AllSentiments)) ==> p.sentiment == f.sentiment.value)
      && (Applies(f.location, Some(AllLocations)) ==> p.location == f.location.value)
      && InRange(f.dateRange, toDay, p.date)
      && (Truthy(f.search) ==> SearchHit(f.search.value, [Some(p.content)]))
    case LastWins =>
      if Truthy(f.search) then SearchHit(f.search.value, [Some(p.content)])
      else if DateRangeBounds(f.dateRange).Some? then InRange(f.dateRange, toDay, p.date)
      else if Applies(f.location, Some(AllLocations)) then p.location == f.location.value
      else Applies(f.sentiment, Some(AllSentiments)) ==> p.sentiment == f.sentiment.value
  }

  lemma {:induction false} FiltersSelect(f: PostFilters, toDay: string -> Day, rule: WhereRule, p: SocialMediaPost)
    ensures Keeps(ListingWheres(f, toDay), rule, p, PostText, PostDate) <==> Selected(rule, f, toDay, p)
  {
    var w0: seq<Cond<PostColumn>> := [];
    var w1 := WhereEquals(w0, Sentiment, f.sentiment, Some(AllSentiments));
    var w2 := WhereEquals(w1, PostLocation, f.location, Some(AllLocations));
    var w3 := WhereDateRange(w2, f.dateRange, toDay);
    NoWhereKeepsAll(rule, p, PostText, PostDate);
    WhereEqualsSelects(w0, Sentiment, f.sentiment, Some(AllSentiments), p, PostText, PostDate);
    WhereEqualsSelects(w1, PostLocation, f.location, Some(AllLocations), p, PostText, PostDate);
    WhereDateRangeSelects(w2, f.dateRange, toDay, p, PostText, PostDate);
    WhereSearchSelects(w3, SearchColumns, f.search, p, PostText, PostDate);
    assert ColumnValues(p, SearchColumns, PostText) == [Some(p.content)];
  }

  /** The posts the filters select, each as often as it is stored, newest first. */
  function Posts(db: Database, f: PostFilters, toDay: string -> Day, rule: WhereRule): (rows: seq<SocialMediaPost>)
    ensures Sorted(rows, NewestFirst)
    ensures forall p :: multiset(rows)[p] == if Selected(rule, f, toDay, p) then multiset(db.socialMedia)[p] else 0
  {
    var w := ListingWheres(f, toDay);
    assert TotalPreorder(NewestFirst);
    assert forall p :: Keeps(w, rule, p, PostText, PostDate) <==> Selected(rule, f, toDay, p) by {
      forall p ensures Keeps(w, rule, p, PostText, PostDate) <==> Selected(rule, f, toDay, p) {
        FiltersSelect(f, toDay, rule, p);
      }
    }
    SelectOrdered(db.socialMedia, p => Keeps(w, rule, p, PostText, PostDate), NewestFirst)
  }

  function Sentiments(db: Database): (s: seq<string>)
    ensures |s| == |db.socialMedia| && forall i :: 0 <= i < |s| ==> s[i] == db.socialMedia[i].sentiment
  {
    seq(|db.socialMedia|, i requires 0 <= i < |db.socialMedia| => db.socialMedia[i].sentiment)
  }

  function PostLocations(db: Database): (s: seq<string>)
    ensures |s| == |db.socialMedia| && forall i :: 0 <= i < |s| ==> s[i] == db.socialMedia[i].location
  {
    seq(|db.socialMedia|, i requires 0 <= i < |db.socialMedia| => db.socialMedia[i].location)
  }

  /**
    * `bySentiment`: one entry per sentiment that occurs, with the number of posts carrying
    * it; the counts add up to the number of posts.
    */
  function BySentiment(db: Database): (g: seq<(string, nat)>)
    ensures Distinct(Keys(g))
    ensures forall s :: s in Keys(g) <==> exists p :: p in db.socialMedia && p.sentiment == s
    ensures forall i :: 0 <= i < |g| ==> g[i].1 == Count(Sentiments(db), g[i].0) && g[i].1 >= 1
    ensures SumCounts(g) == |db.socialMedia|
  {
    var keys := Sentiments(db);
    GroupCountGroups(keys);
    GroupCountTotal(keys);
    assert forall s :: s in keys <==> exists p :: p in db.socialMedia && p.sentiment == s by {
      forall s ensures s in keys <==> exists p :: p in db.socialMedia && p.sentiment == s {
        if s in keys {
          var i :| 0 <= i < |keys| && keys[i] == s;
          assert db.socialMedia[i] in db.socialMedia;
        }
        if p :| p in db.socialMedia && p.sentiment == s {
          var i :| 0 <= i < |db.socialMedia| && db.socialMedia[i] == p;
          assert keys[i] == s;
        }
      }
    }
    GroupCount(keys)
  }

  /** `ORDER BY count(*) DESC`. */
  predicate MostPosts(a: (string, nat), b: (string, nat)) {
    a.1 >= b.1
  }

  const LocationLimit: nat := 10

  /**
    * `byLocation`: the location groups with the most posts first, at most ten of them; no
    * location left out has more posts than one returned.
    */
  function ByLocation(db: Database): (g: seq<(string, nat)>)
    ensures |g| == if |GroupCount(PostLocations(db))| < LocationLimit then |GroupCount(PostLocations(db))| else LocationLimit
    ensures Sorted(g, MostPosts)
    ensures exists rest: seq<(string, nat)> ::
              && multiset(g) + multiset(rest) == multiset(GroupCount(PostLocations(db)))
              && forall i, j :: 0 <= i < |g| && 0 <= j < |rest| ==> MostPosts(g[i], rest[j])
  {
    assert TotalPreorder(MostPosts);
    TopBy(GroupCount(PostLocations(db)), LocationLimit, MostPosts)
  }

  /**
    * One row of `postsOverTime`: a calendar month, a sentiment and the number of posts of
    * that month with that sentiment. The month's display label is a function of its year and
    * month and is left to the caller.
    */
  datatype MonthlySentiment = MonthlySentiment(year: int, month: int, sentiment: string, count: nat)

  /** The (year, month, sentiment) of every post, with `monthOf` standing for `EXTRACT(YEAR/MONTH FROM date)`. */
  function MonthKeys(db: Database, monthOf: Day -> (int, int)): (ks: seq<(int, int, string)>)
    ensures |ks| == |db.socialMedia|
    ensures forall i :: 0 <= i < |ks| ==>
              ks[i] == (monthOf(db.socialMedia[i].date).0, monthOf(db.socialMedia[i].date).1, db.socialMedia[i].sentiment)
  {
    seq(|db.socialMedia|, i requires 0 <= i < |db.socialMedia| =>
      var m := monthOf(db.socialMedia[i].date);
      (m.0, m.1, db.socialMedia[i].sentiment))
  }

  function MonthlyRows(g: seq<((int, int, string), nat)>): (rows: seq<MonthlySentiment>)
    ensures |rows| == |g|
    ensures forall i :: 0 <= i < |g| ==> rows[i] == MonthlySentiment(g[i].0.0, g[i].0.1, g[i].0.2, g[i].1)
  {
    seq(|g|, i requires 0 <= i < |g| => MonthlySentiment(g[i].0.0, g[i].0.1, g[i].0.2, g[i].1))
  }

  /** `ORDER BY year, month_num`. */
  predicate Chronological(a: MonthlySentiment, b: MonthlySentiment) {
    a.year < b.year || (a.year == b.year && a.month <= b.month)
  }

  /**
    * `postsOverTime`: one row per (year, month, sentiment) that occurs, counting its posts,
    * in order of year and month.
    */
  function PostsOverTime(db: Database, monthOf: Day -> (int, int)): (rows: seq<MonthlySentiment>)
    ensures Sorted(rows, Chronological)
    ensures multiset(rows) == multiset(MonthlyRows(GroupCount(MonthKeys(db, monthOf))))
    ensures forall r :: r in rows ==> r.count == Count(MonthKeys(db, monthOf), (r.year, r.month, r.sentiment)) && r.count >= 1
  {
    var keys := MonthKeys(db, monthOf);
    var g := GroupCount(keys);
    var unsorted := MonthlyRows(g);
    GroupCountGroups(keys);
    assert TotalPreorder(Chronological);
    SortBySorted(unsorted, Chronological);
    var rows := SortBy(unsorted, Chronological);
    assert forall r :: r in rows ==> r in unsorted by {
      forall r | r in rows ensures r in unsorted {
        assert multiset(rows)[r] > 0;
      }
    }
    rows
  }
}
