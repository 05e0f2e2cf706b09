/**
  * String operations the server relies on: JavaScript's `String.prototype.split` with a
  * string separator, `Array.prototype.join`, substring containment, and the character-code
  * order used to model `ORDER BY` on text columns.
  */
module Text {

  /** `t` occurs in `s` as a contiguous run of characters. */
  predicate Contains(s: string, t: string) {
    exists i :: 0 <= i <= |s| && t <= s[i..]
  }

  /**
    * `s.split(sep)` for a non-empty separator: the pieces between the leftmost,
    * non-overlapping occurrences of `sep`, scanning from the left.
    */
  function Split(s: string, sep: string): (parts: seq<string>)
    requires sep != []
    ensures |parts| >= 1
    decreases |s|
  {
    if s == [] then [""]
    else if sep <= s then [""] + Split(s[|sep|..], sep)
    else
      var rest := Split(s[1..], sep);
      [[s[0]] + rest[0]] + rest[1..]
  }

  /** `parts.join(sep)`. */
  function Join(parts: seq<string>, sep: string): string {
    if |parts| == 0 then ""
    else if |parts| == 1 then parts[0]
    else parts[0] + sep + Join(parts[1..], sep)
  }

  lemma JoinCons(c: char, parts: seq<string>, sep: string)
    requires |parts| >= 1
    ensures Join([[c] + parts[0]] + parts[1..], sep) == [c] + Join(parts, sep)
  {
    var q := [[c] + parts[0]] + parts[1..];
    assert q[1..] == parts[1..];
  }

  /** Joining the pieces of a split with the same separator gives back the original string. */
  lemma {:induction false} JoinSplit(s: string, sep: string)
    requires sep != []
    ensures Join(Split(s, sep), sep) == s
    decreases |s|
  {
    if s == [] {
    } else if sep <= s {
      JoinSplit(s[|sep|..], sep);
      JoinSplitAtSeparator(s, sep);
    } else {
      JoinSplit(s[1..], sep);
      JoinSplitPastChar(s, sep);
    }
  }

  /** The step of `JoinSplit` where the string starts with the separator. */
  lemma JoinSplitAtSeparator(s: string, sep: string)
    requires sep != [] && sep <= s
    requires Join(Split(s[|sep|..], sep), sep) == s[|sep|..]
    ensures Join(Split(s, sep), sep) == s
  {
    var rest := Split(s[|sep|..], sep);
    var parts := [""] + rest;
    assert Split(s, sep) == parts;
    assert parts[0] == "" && parts[1..] == rest;
    assert Join(parts, sep) == sep + s[|sep|..] by {
      assert Join(parts, sep) == parts[0] + sep + Join(parts[1..], sep);
      assert parts[0] + sep == sep;
    }
    assert s == sep + s[|sep|..];
  }

  /** The step of `JoinSplit` where the first character stays in the first piece. */
  lemma JoinSplitPastChar(s: string, sep: string)
    requires sep != [] && s != [] && !(sep <= s)
    requires Join(Split(s[1..], sep), sep) == s[1..]
    ensures Join(Split(s, sep), sep) == s
  {
    var rest := Split(s[1..], sep);
    assert Split(s, sep) == [[s[0]] + rest[0]] + rest[1..];
    JoinCons(s[0], rest, sep);
    assert s == [s[0]] + s[1..];
  }

  /** A string without the separator's first character is a single piece. */
  lemma {:induction false} SplitWithoutSeparator(s: string, sep: string)
    requires sep != [] && sep[0] !in s
    ensures Split(s, sep) == [s]
    decreases |s|
  {
    if s != [] {
      assert s[0] != sep[0];
      assert !(sep <= s);
      assert sep[0] !in s[1..];
      SplitWithoutSeparator(s[1..], sep);
      assert [s[0]] + s[1..] == s;
    }
  }

  /** A string in which the separator does not occur is a single piece. */
  lemma {:induction false} SplitWithoutOccurrence(s: string, sep: string)
    requires sep != [] && !Contains(s, sep)
    ensures Split(s, sep) == [s]
    decreases |s|
  {
    if s != [] {
      assert s[0..] == s;
      forall i | 0 <= i <= |s[1..]| ensures !(sep <= s[1..][i..]) {
        assert s[1..][i..] == s[i + 1..];
      }
      SplitWithoutOccurrence(s[1..], sep);
      assert [s[0]] + s[1..] == s;
    }
  }

  lemma JoinHead(parts: seq<string>, sep: string)
    requires |parts| >= 1
    ensures parts[0] <= Join(parts, sep)
  {
  }

  /** With a one-character separator, the first piece is the longest prefix free of that character. */
  lemma {:induction false} SplitFirstPiece(s: string, c: char)
    ensures Split(s, [c])[0] <= s
    ensures c !in Split(s, [c])[0]
    ensures |Split(s, [c])[0]| < |s| ==> s[|Split(s, [c])[0]|] == c
    decreases |s|
  {
    if s != [] && !([c] <= s) {
      SplitFirstPiece(s[1..], c);
      assert Split(s, [c])[0] == [s[0]] + Split(s[1..], [c])[0];
    }
  }

  /** When a split yields two pieces or more, the first two with the separator between them start the string. */
  lemma SplitFirstTwo(s: string, sep: string)
    requires sep != [] && |Split(s, sep)| >= 2
    ensures Split(s, sep)[0] + sep + Split(s, sep)[1] <= s
  {
    var parts := Split(s, sep);
    JoinSplit(s, sep);
    JoinHead(parts[1..], sep);
    assert Join(parts, sep) == parts[0] + sep + Join(parts[1..], sep);
  }

  /**
    * When no occurrence of `sep` can start inside `a` (its first character does not occur
    * in `a`), splitting `a + sep + b` cuts at the end of `a`.
    */
  lemma {:induction false} SplitAfter(a: string, b: string, sep: string)
    requires sep != [] && sep[0] !in a
    ensures Split(a + sep + b, sep) == [a] + Split(b, sep)
    decreases |a|
  {
    var s := a + sep + b;
    if a == [] {
      assert s == sep + b;
      assert sep <= s;
      assert s[|sep|..] == b;
    } else {
      assert s[0] == a[0] && a[0] != sep[0];
      assert !(sep <= s);
      assert s[1..] == a[1..] + sep + b;
      assert sep[0] !in a[1..];
      SplitAfter(a[1..], b, sep);
      assert [s[0]] + a[1..] == a;
    }
  }

  /** The leftmost occurrence of `sep` in `s` starts at `k`. */
  predicate FirstOccurrence(s: string, sep: string, k: nat) {
    k <= |s| && sep <= s[k..] && forall i :: 0 <= i < k ==> !(sep <= s[i..])
  }

  lemma {:induction false} FirstOccurrenceExists(s: string, sep: string)
    requires sep != [] && Contains(s, sep)
    ensures exists k: nat :: FirstOccurrence(s, sep, k)
    decreases |s|
  {
    assert s[0..] == s;
    if !(sep <= s) {
      var i :| 0 <= i <= |s| && sep <= s[i..];
      assert i > 0 && s != [];
      assert s[1..][i - 1..] == s[i..];
      FirstOccurrenceExists(s[1..], sep);
      var k: nat :| FirstOccurrence(s[1..], sep, k);
      assert s[k + 1..] == s[1..][k..];
      forall j | 0 <= j < k + 1 ensures !(sep <= s[j..]) {
        if j > 0 {
          assert s[j..] == s[1..][j - 1..];
        }
      }
      assert FirstOccurrence(s, sep, k + 1);
    } else {
      assert FirstOccurrence(s, sep, 0);
    }
  }

  /** A first occurrence past the first character is a first occurrence, one earlier, in the rest of the text. */
  lemma FirstOccurrenceTail(s: string, sep: string, k: nat)
    requires FirstOccurrence(s, sep, k) && k > 0
    ensures s != [] && !(sep <= s)
    ensures FirstOccurrence(s[1..], sep, k - 1)
  {
    assert s[0..] == s;
    var t := s[1..];
    assert t[k - 1..] == s[k..];
    forall i | 0 <= i < k - 1 ensures !(sep <= t[i..]) {
      assert t[i..] == s[i + 1..];
    }
  }

  /** A text that starts with the separator: an empty first piece, then the pieces of what follows it. */
  lemma SplitAtStart(s: string, sep: string)
    requires sep != [] && FirstOccurrence(s, sep, 0)
    ensures Split(s, sep) == [s[..0]] + Split(s[0 + |sep|..], sep)
  {
    assert s[0..] == s;
  }

  /** A text that does not start with the separator: its first character joins the first piece of the rest. */
  lemma SplitCons(s: string, sep: string)
    requires sep != [] && s != [] && !(sep <= s)
    ensures |Split(s[1..], sep)| >= 1
    ensures Split(s, sep) == [[s[0]] + Split(s[1..], sep)[0]] + Split(s[1..], sep)[1..]
  {
  }

  /** Putting a character back in front of the first of the pieces. */
  lemma ConsPiece(whole: seq<string>, rest: seq<string>, c: char, first: string, cut: string, others: seq<string>)
    requires |rest| >= 1 && whole == [[c] + rest[0]] + rest[1..]
    requires rest == [first] + others && [c] + first == cut
    ensures whole == [cut] + others
  {
    assert rest[0] == first && rest[1..] == others;
  }

  /** With the first character joined to the first piece, a cut `k - 1` characters into the rest is a cut `k` characters in. */
  lemma SplitNotAtStart(s: string, sep: string, k: nat)
    requires sep != [] && 0 < k <= |s| && k + |sep| <= |s|
    requires |Split(s[1..], sep)| >= 1
    requires Split(s, sep) == [[s[0]] + Split(s[1..], sep)[0]] + Split(s[1..], sep)[1..]
    requires Split(s[1..], sep) == [s[1..][..k - 1]] + Split(s[1..][k - 1 + |sep|..], sep)
    ensures Split(s, sep) == [s[..k]] + Split(s[k + |sep|..], sep)
  {
    var t := s[1..];
    DropFirst(s, k, |sep|);
    ConsPiece(Split(s, sep), Split(t, sep), s[0], t[..k - 1], s[..k], Split(s[k + |sep|..], sep));
  }

  /** Cutting the first character off, then `k - 1 + n` more, is cutting `k + n` off. */
  lemma DropFirst(s: string, k: nat, n: nat)
    requires 1 <= k && k + n <= |s|
    ensures s[1..][k - 1 + n..] == s[k + n..]
    ensures [s[0]] + s[1..][..k - 1] == s[..k]
  {
  }

  /** `s.split(sep)` cuts at the leftmost occurrence of `sep`, then splits what follows it. */
  lemma {:induction false} SplitAtFirst(s: string, sep: string, k: nat)
    requires sep != [] && FirstOccurrence(s, sep, k)
    ensures Split(s, sep) == [s[..k]] + Split(s[k + |sep|..], sep)
    decreases k
  {
    if k == 0 {
      SplitAtStart(s, sep);
    } else {
      FirstOccurrenceTail(s, sep, k);
      SplitAtFirst(s[1..], sep, k - 1);
      SplitCons(s, sep);
      SplitNotAtStart(s, sep, k);
    }
  }

  /**
    * When the separator occurs, the first piece of a split is the text before its leftmost
    * occurrence, and the other pieces are those of the text after it.
    */
  lemma SplitAtLeftmost(s: string, sep: string) returns (k: nat)
    requires sep != [] && Contains(s, sep)
    ensures FirstOccurrence(s, sep, k)
    ensures Split(s, sep) == [s[..k]] + Split(s[k + |sep|..], sep)
  {
    FirstOccurrenceExists(s, sep);
    k :| FirstOccurrence(s, sep, k);
    SplitAtFirst(s, sep, k);
  }

  /** Two cuts in a row, each at the leftmost separator of what is left. */
  lemma SplitTwice(a: string, b: string, rest: string, sep: string)
    requires sep != []
    requires FirstOccurrence(a + sep + (b + sep + rest), sep, |a|)
    requires FirstOccurrence(b + sep + rest, sep, |b|)
    ensures Split(a + sep + (b + sep + rest), sep) == [a, b] + Split(rest, sep)
  {
    var after := b + sep + rest;
    var s := a + sep + after;
    CutAtFirst(s, a, after, sep);
    CutAtFirst(after, b, rest, sep);
    var tail := Split(rest, sep);
    assert [a] + ([b] + tail) == [a, b] + tail;
  }

  /** Splitting `a + sep + t`, cut at `a`, gives `a` and the pieces of `t`. */
  lemma CutAtFirst(s: string, a: string, t: string, sep: string)
    requires sep != [] && s == a + sep + t && FirstOccurrence(s, sep, |a|)
    ensures Split(s, sep) == [a] + Split(t, sep)
  {
    SplitAtFirst(s, sep, |a|);
    assert s[..|a|] == a && s[|a| + |sep|..] == t;
  }

  /** A split into two pieces or more means the separator occurs. */
  lemma OccursWhenSplit(s: string, sep: string)
    requires sep != []
    ensures |Split(s, sep)| >= 2 ==> Contains(s, sep)
  {
    if !Contains(s, sep) {
      SplitWithoutOccurrence(s, sep);
    }
  }

  /** The first piece of a split: the text up to the next separator, or all of it. */
  lemma FirstPieceEnds(s: string, sep: string)
    requires sep != []
    ensures var a := Split(s, sep)[0];
            || (a == s && !Contains(s, sep))
            || (FirstOccurrence(s, sep, |a|) && a == s[..|a|])
  {
    if Contains(s, sep) {
      var k := SplitAtLeftmost(s, sep);
      assert Split(s, sep)[0] == s[..k];
    } else {
      SplitWithoutOccurrence(s, sep);
    }
  }

  /**
    * With two pieces or more, the first is the text before the leftmost separator, and the
    * second the text after it, up to the next separator or to the end.
    */
  lemma FirstTwoPieces(s: string, sep: string)
    requires sep != [] && |Split(s, sep)| >= 2
    ensures var a := Split(s, sep)[0];
            FirstOccurrence(s, sep, |a|) && a == s[..|a|]
    ensures var a, b := Split(s, sep)[0], Split(s, sep)[1];
            var rest := s[|a| + |sep|..];
            || (b == rest && !Contains(rest, sep))
            || (FirstOccurrence(rest, sep, |b|) && b == rest[..|b|])
  {
    OccursWhenSplit(s, sep);
    var k := SplitAtLeftmost(s, sep);
    var parts := Split(s, sep);
    var rest := s[k + |sep|..];
    var tail := Split(rest, sep);
    assert parts == [s[..k]] + tail;
    assert parts[0] == s[..k] && parts[1] == tail[0];
    FirstPieceEnds(rest, sep);
  }

  /**
    * Splitting a join gives back the parts, provided no part holds the separator's first
    * character (so the join holds the separator exactly where it was put).
    */
  lemma {:induction false} SplitJoin(parts: seq<string>, sep: string)
    requires sep != [] && |parts| >= 1
    requires forall k :: 0 <= k < |parts| ==> sep[0] !in parts[k]
    ensures Split(Join(parts, sep), sep) == parts
    decreases |parts|
  {
    if |parts| == 1 {
      SplitWithoutSeparator(parts[0], sep);
    } else {
      SplitJoin(parts[1..], sep);
      SplitAfter(parts[0], Join(parts[1..], sep), sep);
      assert [parts[0]] + parts[1..] == parts;
    }
  }

  /** Lexicographic order on character codes (the "C" collation). */
  predicate StrLe(a: string, b: string)
    decreases |a|
  {
    if a == [] then true
    else if b == [] then false
    else if a[0] != b[0] then a[0] < b[0]
    else StrLe(a[1..], b[1..])
  }

  lemma {:induction false} StrLeTotal(a: string, b: string)
    ensures StrLe(a, b) || StrLe(b, a)
    decreases |a|
  {
    if a != [] && b != [] && a[0] == b[0] {
      StrLeTotal(a[1..], b[1..]);
    }
  }

  lemma {:induction false} StrLeTransitive(a: string, b: string, c: string)
    requires StrLe(a, b) && StrLe(b, c)
    ensures StrLe(a, c)
    decreases |a|
  {
    if a != [] && b != [] && c != [] && a[0] == b[0] && b[0] == c[0] {
      StrLeTransitive(a[1..], b[1..], c[1..]);
    }
  }

  lemma {:induction false} StrLeAntisymmetric(a: string, b: string)
    requires StrLe(a, b) && StrLe(b, a)
    ensures a == b
    decreases |a|
  {
    if a != [] && b != [] {
      StrLeAntisymmetric(a[1..], b[1..]);
      assert a == [a[0]] + a[1..] && b == [b[0]] + b[1..];
    }
  }
}
