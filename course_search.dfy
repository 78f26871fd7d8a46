/** `searchForClassByKeyword`: the keyword is wrapped in `%` wildcards and
    handed to `Course.title LIKE %s`. The keyword is not escaped, so a `%`,
    `_` or backslash typed by the user acts as LIKE syntax. */
module CourseSearch {

  /** The LIKE pattern the method builds. */
  function Pattern(keyword: string): (p: string)
    ensures |p| == |keyword| + 2 && p[0] == '%' && p[|p| - 1] == '%'
    ensures p[1..|p| - 1] == keyword
  {
    "%" + keyword + "%"
  }

  /** A keyword in which LIKE sees no wildcard and no escape. */
  predicate Literal(keyword: string) {
    forall i :: 0 <= i < |keyword| ==> keyword[i] != '%' && keyword[i] != '_' && keyword[i] != '\\'
  }

  /** `s LIKE p` as MySQL reads the pattern: `%` matches any run of characters,
      `_` any one character, a backslash makes the next character literal, and
      every other character matches itself. */
  function Like(p: string, s: string): bool
    decreases |p| + |s|
  {
    if p == [] then s == []
    else if p[0] == '%' then Like(p[1..], s) || (s != [] && Like(p, s[1..]))
    else if p[0] == '_' then s != [] && Like(p[1..], s[1..])
    else if p[0] == '\\' && |p| >= 2 then s != [] && s[0] == p[1] && Like(p[2..], s[1..])
    else s != [] && s[0] == p[0] && Like(p[1..], s[1..])
  }

  /** `keyword` occurs in `title` as a substring. */
  ghost predicate Contains(title: string, keyword: string) {
    exists i :: 0 <= i <= |title| && keyword <= title[i..]
  }

  lemma {:induction false} PercentMatchesAll(s: string)
    ensures Like("%", s)
    decreases |s|
  {
    assert "%"[1..] == [];
    if s != [] {
      PercentMatchesAll(s[1..]);
    }
  }

  lemma {:induction false} LiteralThenPercent(k: string, u: string)
    requires Literal(k)
    ensures Like(k + "%", u) <==> k <= u
    decreases |k|
  {
    if k == [] {
      assert k + "%" == "%";
      PercentMatchesAll(u);
    } else {
      var p := k + "%";
      assert p[0] == k[0] && p[1..] == k[1..] + "%";
      assert Literal(k[1..]);
      if u != [] {
        LiteralThenPercent(k[1..], u[1..]);
        assert k <= u <==> k[0] == u[0] && k[1..] <= u[1..];
      }
    }
  }

  lemma {:induction false} LeadingPercent(q: string, t: string)
    ensures Like("%" + q, t) <==> exists i :: 0 <= i <= |t| && Like(q, t[i..])
    decreases |t|
  {
    var p := "%" + q;
    assert p[0] == '%' && p[1..] == q;
    assert t[0..] == t;
    if t != [] {
      LeadingPercent(q, t[1..]);
      if Like(p, t[1..]) {
        var i :| 0 <= i <= |t[1..]| && Like(q, t[1..][i..]);
        assert t[1..][i..] == t[i + 1..];
      }
      if exists i :: 0 <= i <= |t| && Like(q, t[i..]) {
        var i :| 0 <= i <= |t| && Like(q, t[i..]);
        if i > 0 {
          assert t[1..][i - 1..] == t[i..];
        }
      }
    }
  }

  /** For a keyword without LIKE syntax the search finds exactly the titles
      that contain the keyword. */
  lemma SearchFindsSubstrings(keyword: string, title: string)
    requires Literal(keyword)
    ensures Like(Pattern(keyword), title) <==> Contains(title, keyword)
  {
    assert Pattern(keyword) == "%" + (keyword + "%");
    LeadingPercent(keyword + "%", title);
    forall i | 0 <= i <= |title| ensures Like(keyword + "%", title[i..]) <==> keyword <= title[i..] {
      LiteralThenPercent(keyword, title[i..]);
    }
  }

  /** Because the keyword is not escaped, searching for "_" finds a title that
      has no underscore in it. */
  lemma UnderscoreMatchesAnyTitle()
    ensures Like(Pattern("_"), "OS")
    ensures !Contains("OS", "_")
  {
    var p := Pattern("_");
    assert p == "%_%";
    assert p[1..] == "_%" && "_%"[1..] == "%";
    assert "OS"[1..] == "S";
    PercentMatchesAll("S");
    assert Like("_%", "OS");
    forall i | 0 <= i <= 2 ensures !("_" <= "OS"[i..]) {
      if i < 2 { assert "OS"[i..][0] != '_'; }
    }
  }
}
