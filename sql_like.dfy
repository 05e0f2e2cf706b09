/**
  * PostgreSQL's `LIKE` (case-sensitive): `%` matches any run of characters, `_` any one
  * character, and the default escape character `\` makes the character after it literal.
  * The server's free-text search builds the pattern `%term%` without escaping the term.
  */
module SqlLike {
  import opened Text

  const Escape: char := '\\'

  /** Every escape character is followed by the character it escapes (PostgreSQL rejects others). */
  predicate WellFormed(p: string)
    decreases |p|
  {
    if p == [] then true
    else if p[0] == Escape then |p| >= 2 && WellFormed(p[2..])
    else WellFormed(p[1..])
  }

  /** `s LIKE p`. */
  predicate Matches(s: string, p: string)
    requires WellFormed(p)
    decreases |p|, |s|
  {
    if p == [] then s == []
    else if p[0] == '%' then Matches(s, p[1..]) || (s != [] && Matches(s[1..], p))
    else if p[0] == '_' then s != [] && Matches(s[1..], p[1..])
    else if p[0] == Escape then s != [] && s[0] == p[1] && Matches(s[1..], p[2..])
    else s != [] && s[0] == p[0] && Matches(s[1..], p[1..])
  }

  /** No character of `t` is special in a pattern. */
  predicate Plain(t: string) {
    '%' !in t && '_' !in t && Escape !in t
  }

  /** The pattern `%${search}%` that the listing and export endpoints pass to `like`. */
  function SearchPattern(term: string): string {
    "%" + term + "%"
  }

  /** A pattern that does not end in an escape character is well formed. */
  lemma {:induction false} WellFormedUnlessTrailingEscape(p: string)
    requires p != [] && p[|p| - 1] != Escape
    ensures WellFormed(p)
    decreases |p|
  {
    if p[0] == Escape {
      assert |p| >= 2;
      if |p| > 2 {
        WellFormedUnlessTrailingEscape(p[2..]);
      }
    } else if |p| > 1 {
      WellFormedUnlessTrailingEscape(p[1..]);
    }
  }

  /** Whatever the user types, the search pattern is one PostgreSQL accepts. */
  lemma SearchPatternWellFormed(term: string)
    ensures WellFormed(SearchPattern(term))
  {
    WellFormedUnlessTrailingEscape(SearchPattern(term));
  }

  lemma {:induction false} PercentMatchesAll(s: string)
    ensures WellFormed("%") && Matches(s, "%")
    decreases |s|
  {
    assert "%"[1..] == "";
    if s != [] {
      PercentMatchesAll(s[1..]);
    }
  }

  /** A plain term followed by `%` matches exactly the strings that start with the term. */
  lemma {:induction false} PlainThenPercent(s: string, t: string)
    requires Plain(t)
    ensures WellFormed(t + "%")
    ensures Matches(s, t + "%") <==> t <= s
    decreases |t|
  {
    if t == [] {
      assert t + "%" == "%";
      PercentMatchesAll(s);
    } else {
      var p := t + "%";
      assert p[0] == t[0] && p[1..] == t[1..] + "%";
      assert Plain(t[1..]);
      if s == [] {
        PlainThenPercent(s, t[1..]);
      } else {
        PlainThenPercent(s[1..], t[1..]);
        assert t <= s <==> t[0] == s[0] && t[1..] <= s[1..];
      }
    }
  }

  /** A leading `%` lets the rest of the pattern match any suffix. */
  lemma {:induction false} PercentThen(s: string, q: string)
    requires WellFormed(q)
    ensures WellFormed("%" + q)
    ensures Matches(s, "%" + q) <==> exists i :: 0 <= i <= |s| && Matches(s[i..], q)
    decreases |s|
  {
    var p := "%" + q;
    assert p[1..] == q;
    if s == [] {
      assert Matches(s, p) <==> Matches(s, q);
      assert s[0..] == s;
    } else {
      PercentThen(s[1..], q);
      if Matches(s, p) {
        if Matches(s, q) {
          assert s[0..] == s;
        } else {
          var i :| 0 <= i <= |s[1..]| && Matches(s[1..][i..], q);
          assert s[1..][i..] == s[i + 1..];
        }
      }
      if exists i :: 0 <= i <= |s| && Matches(s[i..], q) {
        var i :| 0 <= i <= |s| && Matches(s[i..], q);
        if i == 0 {
          assert s[0..] == s;
        } else {
          assert s[1..][i - 1..] == s[i..];
          assert Matches(s[1..], p);
        }
      }
    }
  }

  /** For a term without `%`, `_` or `\`, the search pattern is a substring test. */
  lemma SearchIsSubstring(s: string, term: string)
    requires Plain(term)
    ensures WellFormed(SearchPattern(term))
    ensures Matches(s, SearchPattern(term)) <==> Contains(s, term)
  {
    PlainThenPercent(s, term);
    PercentThen(s, term + "%");
    assert SearchPattern(term) == "%" + (term + "%");
    if Matches(s, SearchPattern(term)) {
      var i :| 0 <= i <= |s| && Matches(s[i..], term + "%");
      PlainThenPercent(s[i..], term);
    }
    if Contains(s, term) {
      var i :| 0 <= i <= |s| && term <= s[i..];
      PlainThenPercent(s[i..], term);
    }
  }

  /**
    * The term is not escaped: an `_` the user types matches any character, so searching for
    * "a_c" finds "abc", which does not contain "a_c".
    */
  lemma UnderscoreIsAWildcard()
    ensures WellFormed(SearchPattern("a_c"))
    ensures Matches("abc", SearchPattern("a_c"))
    ensures !Contains("abc", "a_c")
  {
    SearchPatternWellFormed("a_c");
    var p := SearchPattern("a_c");
    assert p[1..] == "a_c%";
    assert "a_c%"[1..] == "_c%";
    assert "_c%"[1..] == "c%";
    assert "c%"[1..] == "%";
    assert "abc"[1..] == "bc" && "bc"[1..] == "c" && "c"[1..] == "";
    PercentMatchesAll("");
    assert Matches("abc", "a_c%");
    forall i | 0 <= i <= 3 ensures !("a_c" <= "abc"[i..]) {
      if i == 0 { assert "abc"[0..][1] != "a_c"[1]; }
    }
  }
}
