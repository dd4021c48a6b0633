/**
 * SQLite's built-in `LIKE` operator without an ESCAPE clause, as the two task
 * queries use it: `name LIKE '%' || :searchQuery || '%'`. `%` matches any run
 * of characters, `_` any single character, and other characters match when they
 * are equal after folding ASCII upper case to lower case (letters outside ASCII
 * are compared exactly).
 */
module SqlLike {

  function FoldAscii(c: char): char {
    if 'A' <= c <= 'Z' then (c as int + 32) as char else c
  }

  predicate CharMatches(p: char, c: char) {
    FoldAscii(p) == FoldAscii(c)
  }

  /** `s LIKE p` */
  predicate Like(p: string, s: string)
    decreases |p| + |s|
  {
    if p == [] then s == []
    else if p[0] == '%' then Like(p[1..], s) || (s != [] && Like(p, s[1..]))
    else s != [] && (p[0] == '_' || CharMatches(p[0], s[0])) && Like(p[1..], s[1..])
  }

  /** The pattern `'%' || q || '%'` the queries build from the search text. */
  function SearchPattern(q: string): string {
    "%" + q + "%"
  }

  predicate HasNoWildcards(q: string) {
    '%' !in q && '_' !in q
  }

  /** `q` is a prefix of `s`, ignoring ASCII case. */
  predicate StartsWithIgnoringCase(s: string, q: string) {
    |q| <= |s| && forall i :: 0 <= i < |q| ==> CharMatches(q[i], s[i])
  }

  /** `q` occurs in `s`, ignoring ASCII case. */
  predicate ContainsIgnoringCase(s: string, q: string) {
    exists i :: 0 <= i <= |s| && StartsWithIgnoringCase(s[i..], q)
  }

  /** A lone `%` matches every string. */
  lemma {:induction false} PercentMatchesAll(s: string)
    ensures Like("%", s)
  {
    if s != [] {
      PercentMatchesAll(s[1..]);
    }
  }

  /** With no wildcards in `q`, `LIKE q || '%'` is an ASCII-case-insensitive prefix test. */
  lemma {:induction false} LikeTrailingPercent(q: string, s: string)
    requires HasNoWildcards(q)
    ensures Like(q + "%", s) <==> StartsWithIgnoringCase(s, q)
  {
    if q == [] {
      assert q + "%" == "%";
      PercentMatchesAll(s);
    } else {
      assert (q + "%")[0] == q[0];
      assert (q + "%")[1..] == q[1..] + "%";
      assert HasNoWildcards(q[1..]) by {
        assert forall c :: c in q[1..] ==> c in q;
      }
      if s != [] {
        LikeTrailingPercent(q[1..], s[1..]);
        if StartsWithIgnoringCase(s, q) {
          assert StartsWithIgnoringCase(s[1..], q[1..]) by {
            forall i | 0 <= i < |q[1..]| ensures CharMatches(q[1..][i], s[1..][i]) {
              assert q[1..][i] == q[i + 1] && s[1..][i] == s[i + 1];
            }
          }
        }
        if Like(q + "%", s) {
          assert CharMatches(q[0], s[0]);
          forall i | 0 <= i < |q| ensures CharMatches(q[i], s[i]) {
            if i > 0 {
              assert q[1..][i - 1] == q[i] && s[1..][i - 1] == s[i];
            }
          }
        }
      }
    }
  }

  /** A leading `%` lets the rest of the pattern match any suffix. */
  lemma {:induction false} LikeLeadingPercent(p: string, s: string)
    ensures Like("%" + p, s) <==> exists i :: 0 <= i <= |s| && Like(p, s[i..])
  {
    var pp := "%" + p;
    assert pp[0] == '%' && pp[1..] == p;
    if s == [] {
      assert s[0..] == s;
    } else {
      LikeLeadingPercent(p, s[1..]);
      assert s[0..] == s;
      if exists i :: 0 <= i <= |s| && Like(p, s[i..]) {
        var i :| 0 <= i <= |s| && Like(p, s[i..]);
        if i > 0 {
          assert s[1..][i - 1..] == s[i..];
        }
      }
      if exists i :: 0 <= i <= |s[1..]| && Like(p, s[1..][i..]) {
        var i :| 0 <= i <= |s[1..]| && Like(p, s[1..][i..]);
        assert s[1..][i..] == s[i + 1..];
      }
    }
  }

  /** For wildcard-free search text the query's LIKE is exactly a case-insensitive substring test. */
  lemma SearchPatternMeansContains(q: string, s: string)
    requires HasNoWildcards(q)
    ensures Like(SearchPattern(q), s) <==> ContainsIgnoringCase(s, q)
  {
    assert SearchPattern(q) == "%" + (q + "%");
    LikeLeadingPercent(q + "%", s);
    forall i | 0 <= i <= |s| ensures Like(q + "%", s[i..]) <==> StartsWithIgnoringCase(s[i..], q) {
      LikeTrailingPercent(q, s[i..]);
    }
  }

  /** A name that starts with wildcard-free search text (ignoring ASCII case) is found by it. */
  lemma PrefixIsFound(q: string, s: string)
    requires HasNoWildcards(q) && StartsWithIgnoringCase(s, q)
    ensures Like(SearchPattern(q), s)
  {
    SearchPatternMeansContains(q, s);
    assert s[0..] == s;
  }

  /** Empty search text filters nothing out. */
  lemma EmptySearchMatchesAll(s: string)
    ensures Like(SearchPattern(""), s)
  {
    SearchPatternMeansContains("", s);
    assert StartsWithIgnoringCase(s[0..], "");
  }

  /** Wildcards in the search text are not literal: searching for "_" matches a name without one. */
  lemma UnderscoreIsAWildcard()
    ensures Like(SearchPattern("_"), "a") && !ContainsIgnoringCase("a", "_")
  {
    assert SearchPattern("_") == "%_%";
    assert Like("", "");
    assert Like("%", "");
    assert Like("_%", "a");
    assert Like("%_%", "a");
  }
}
