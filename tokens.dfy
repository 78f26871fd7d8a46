/** Python's `str.split()` with no separator, which the menu uses to cut the
    "prefix number" line into tokens: runs of whitespace separate tokens, and
    leading or trailing whitespace produces no empty token. */
module Tokens {

  /** The characters for which Python's `str.isspace()` holds. */
  const Whitespace: set<char> := {
    '\t', '\n', '\U{0B}', '\U{0C}', '\r', '\U{1C}', '\U{1D}', '\U{1E}', '\U{1F}', ' ', '\U{85}', '\U{A0}',
    '\U{1680}', '\U{2000}', '\U{2001}', '\U{2002}', '\U{2003}', '\U{2004}', '\U{2005}', '\U{2006}',
    '\U{2007}', '\U{2008}', '\U{2009}', '\U{200A}', '\U{2028}', '\U{2029}', '\U{202F}', '\U{205F}', '\U{3000}'
  }

  predicate IsSpace(c: char) {
    c in Whitespace
  }

  predicate NoSpace(w: string) {
    forall i :: 0 <= i < |w| ==> !IsSpace(w[i])
  }

  /** What `split()` can produce: a non-empty run of non-whitespace characters. */
  predicate IsToken(w: string) {
    w != [] && NoSpace(w)
  }

  predicate AllTokens(ws: seq<string>) {
    forall i :: 0 <= i < |ws| ==> IsToken(ws[i])
  }

  /** The non-whitespace characters of `s`, in order. */
  function NonSpace(s: string): string {
    if s == [] then [] else (if IsSpace(s[0]) then [] else [s[0]]) + NonSpace(s[1..])
  }

  function Concat(ws: seq<string>): string {
    if ws == [] then [] else ws[0] + Concat(ws[1..])
  }

  /** `" ".join(ws)`. */
  function Join(ws: seq<string>): string {
    if ws == [] then [] else if |ws| == 1 then ws[0] else ws[0] + " " + Join(ws[1..])
  }

  /** The longest prefix of `s` without whitespace. */
  function Word(s: string): (w: string)
    ensures |w| <= |s| && w == s[..|w|]
    ensures NoSpace(w)
    ensures |w| == |s| || IsSpace(s[|w|])
    ensures s != [] && !IsSpace(s[0]) ==> w != []
  {
    if s == [] || IsSpace(s[0]) then [] else [s[0]] + Word(s[1..])
  }

  lemma {:induction false} NonSpaceAppend(a: string, b: string)
    ensures NonSpace(a + b) == NonSpace(a) + NonSpace(b)
  {
    if a == [] {
      assert a + b == b;
    } else {
      assert (a + b)[0] == a[0];
      assert (a + b)[1..] == a[1..] + b;
      NonSpaceAppend(a[1..], b);
    }
  }

  lemma {:induction false} NonSpaceOfNoSpace(w: string)
    requires NoSpace(w)
    ensures NonSpace(w) == w
  {
    if w != [] {
      NonSpaceOfNoSpace(w[1..]);
    }
  }

  /** `s.split()`. */
  function Split(s: string): (r: seq<string>)
    ensures s == [] ==> r == []
    decreases |s|
  {
    if s == [] then []
    else if IsSpace(s[0]) then Split(s[1..])
    else
      var w := Word(s);
      [w] + Split(s[|w|..])
  }

  /** Every token is non-empty and free of whitespace. */
  lemma {:induction false} SplitTokens(s: string)
    ensures AllTokens(Split(s))
    decreases |s|
  {
    if s != [] && IsSpace(s[0]) {
      SplitTokens(s[1..]);
    } else if s != [] {
      var w := Word(s);
      SplitTokens(s[|w|..]);
      assert Split(s) == [w] + Split(s[|w|..]);
    }
  }

  /** Together the tokens hold exactly the non-whitespace characters of the
      line, in order: splitting drops the whitespace and nothing else. */
  lemma {:induction false} SplitKeepsText(s: string)
    ensures Concat(Split(s)) == NonSpace(s)
    decreases |s|
  {
    if s != [] && IsSpace(s[0]) {
      SplitKeepsText(s[1..]);
    } else if s != [] {
      var w := Word(s);
      var rest := s[|w|..];
      assert s == w + rest;
      NonSpaceAppend(w, rest);
      NonSpaceOfNoSpace(w);
      SplitKeepsText(rest);
      assert Split(s) == [w] + Split(rest);
      assert ([w] + Split(rest))[1..] == Split(rest);
    }
  }

  lemma {:induction false} WordOfToken(w: string, rest: string)
    requires NoSpace(w)
    requires rest == [] || IsSpace(rest[0])
    ensures Word(w + rest) == w
  {
    if w != [] {
      assert (w + rest)[1..] == w[1..] + rest;
      WordOfToken(w[1..], rest);
    }
  }

  /** Splitting tokens joined by single spaces gives the tokens back. */
  lemma {:induction false} SplitJoin(ws: seq<string>)
    requires AllTokens(ws)
    ensures Split(Join(ws)) == ws
  {
    if |ws| == 1 {
      WordOfToken(ws[0], []);
      assert ws[0] + [] == ws[0];
    } else if |ws| > 1 {
      var w, tail := ws[0], Join(ws[1..]);
      assert Join(ws) == w + " " + tail;
      assert AllTokens(ws[1..]);
      SplitJoin(ws[1..]);
      SplitToken(w, " ", tail);
      assert ws == [w] + ws[1..];
    }
  }

  /** Only whitespace. */
  predicate AllSpace(pad: string) {
    forall i :: 0 <= i < |pad| ==> IsSpace(pad[i])
  }

  /** Whitespace in front of the line produces no token. */
  lemma {:induction false} SplitSkipsSpace(pad: string, s: string)
    requires AllSpace(pad)
    ensures Split(pad + s) == Split(s)
    decreases |pad|
  {
    if pad == [] {
      assert pad + s == s;
    } else {
      assert (pad + s)[0] == pad[0];
      assert (pad + s)[1..] == pad[1..] + s;
      SplitSkipsSpace(pad[1..], s);
    }
  }

  /** A token followed by whitespace is the first token of the line. */
  lemma SplitToken(w: string, pad: string, rest: string)
    requires IsToken(w) && pad != [] && AllSpace(pad)
    ensures Split(w + pad + rest) == [w] + Split(rest)
  {
    var s := w + pad + rest;
    assert s == w + (pad + rest);
    WordOfToken(w, pad + rest);
    assert s[|w|..] == pad + rest;
    SplitSkipsSpace(pad, rest);
  }

  /** A token followed only by whitespace is the whole split. */
  lemma SplitTrailing(w: string, trail: string)
    requires IsToken(w) && AllSpace(trail)
    ensures Split(w + trail) == [w]
  {
    if trail == [] {
      WordOfToken(w, []);
      assert w + trail == w + [] == w;
      assert w[|w|..] == [];
    } else {
      assert w + trail == w + trail + [];
      SplitToken(w, trail, []);
    }
  }

  /** Two tokens with whitespace before, between and after them split into
      exactly those two tokens. */
  lemma SplitPadded(lead: string, first: string, gap: string, second: string, trail: string)
    requires AllSpace(lead) && AllSpace(gap) && gap != [] && AllSpace(trail)
    requires IsToken(first) && IsToken(second)
    ensures Split(lead + first + gap + second + trail) == [first, second]
  {
    SplitFirstTwo(lead, first, gap, second, trail);
    assert trail == trail + [];
    SplitSkipsSpace(trail, []);
    assert [first, second] + [] == [first, second];
  }

  /** A token followed by the end of the line or by whitespace is the first
      token, and the split goes on with the rest. */
  lemma SplitLeadingToken(w: string, tail: string)
    requires IsToken(w) && (tail == [] || IsSpace(tail[0]))
    ensures Split(w + tail) == [w] + Split(tail)
  {
    WordOfToken(w, tail);
    assert (w + tail)[|w|..] == tail;
  }

  lemma PrependTwo<T>(a: T, b: T, rest: seq<T>)
    ensures [a] + ([b] + rest) == [a, b] + rest
  {
  }

  /** Two tokens with whitespace before and between them, followed by the end
      of the line or by whitespace, are the first two tokens whatever comes
      after them. */
  lemma SplitFirstTwo(lead: string, first: string, gap: string, second: string, tail: string)
    requires AllSpace(lead) && AllSpace(gap) && gap != []
    requires IsToken(first) && IsToken(second) && (tail == [] || IsSpace(tail[0]))
    ensures Split(lead + first + gap + second + tail) == [first, second] + Split(tail)
  {
    var after := second + tail;
    var body := first + gap + after;
    assert lead + first + gap + second + tail == lead + body;
    var rest := Split(tail);
    SplitLeadingToken(second, tail);
    assert Split(after) == [second] + rest;
    SplitToken(first, gap, after);
    assert Split(body) == [first] + ([second] + rest);
    PrependTwo(first, second, rest);
    SplitSkipsSpace(lead, body);
  }

  /** A line holding at most one token, with any whitespace around it, splits
      into fewer than two tokens. */
  lemma SplitAtMostOne(lead: string, w: string, trail: string)
    requires AllSpace(lead) && AllSpace(trail) && (w == [] || IsToken(w))
    ensures |Split(lead + w + trail)| < 2
  {
    assert lead + w + trail == lead + (w + trail);
    SplitSkipsSpace(lead, w + trail);
    if w == [] {
      assert w + trail == trail + [];
      SplitSkipsSpace(trail, []);
    } else {
      SplitTrailing(w, trail);
    }
  }
}
