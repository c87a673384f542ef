/** The pattern matcher of the embedded HTTP server (src/mongoose.cc, match_prefix), against a
    declarative reading of its patterns. */
module Glob {

  function Lower(c: char): char {
    if 'A' <= c <= 'Z' then c + 32 as char else c
  }

  /** strcspn(s, "/"): the length of the longest prefix without a slash. */
  function Span(s: string): (n: nat)
    ensures n <= |s| && '/' !in s[..n]
    ensures n < |s| ==> s[n] == '/'
  {
    if s == "" || s[0] == '/' then 0 else
    var n := Span(s[1..]);
    assert s[..1 + n] == [s[0]] + s[1..][..n];
    1 + n
  }

  /** Pattern p, without '|', matches the first n characters of s: '?' is any one character, '*'
      any run of characters other than '/', "**" any run, '$' the end of s (whatever follows it in
      the pattern is ignored), and every other character itself in either case. */
  ghost predicate Matches(p: string, s: string, n: nat)
    decreases |p|
  {
    if p == "" then
      n == 0
    else if p[0] == '$' then
      s == "" && n == 0
    else if p[0] == '*' && |p| > 1 && p[1] == '*' then
      exists k :: 0 <= k <= n && k <= |s| && Matches(p[2..], s[k..], n - k)
    else if p[0] == '*' then
      exists k :: 0 <= k <= n && k <= |s| && '/' !in s[..k] && Matches(p[1..], s[k..], n - k)
    else
      n > 0 && s != "" && (p[0] == '?' || Lower(p[0]) == Lower(s[0])) && Matches(p[1..], s[1..], n - 1)
  }

  /** The position of the first '|', or the length if there is none. */
  function FirstBar(p: string): (b: nat)
    ensures b <= |p| && '|' !in p[..b]
    ensures b < |p| ==> p[b] == '|'
  {
    if p == "" || p[0] == '|' then 0 else
    var b := FirstBar(p[1..]);
    assert p[..1 + b] == [p[0]] + p[1..][..b];
    1 + b
  }

  /** The alternatives a pattern separates by '|'. */
  function Alternatives(p: string): seq<string>
    decreases |p|
  {
    var b := FirstBar(p);
    if b == |p| then [p] else [p[..b]] + Alternatives(p[b + 1..])
  }

  ghost predicate NoMatch(p: string, s: string) {
    forall n: nat :: !Matches(p, s, n)
  }

  ghost predicate OnlyEmptyMatch(p: string, s: string) {
    forall n: nat :: Matches(p, s, n) ==> n == 0
  }

  /** What a caller may conclude from the result for a pattern without alternatives. */
  ghost predicate Sound(p: string, s: string, res: int) {
    && -1 <= res <= |s|
    && (res >= 0 ==> Matches(p, s, res))
    && (res == -1 ==> NoMatch(p, s))
    && (res == 0 ==> OnlyEmptyMatch(p, s))
  }

  /** Peeling off the first i characters of pattern and string together. */
  ghost predicate PeeledTo(p: string, s: string, i: nat)
    requires i <= |p| && i <= |s|
  {
    forall n: nat :: Matches(p, s, n) <==> n >= i && Matches(p[i..], s[i..], n - i)
  }

  lemma PeelOne(p: string, s: string, i: nat)
    requires i < |p| && i < |s| && PeeledTo(p, s, i)
    requires p[i] != '$' && p[i] != '*'
    requires p[i] == '?' || Lower(p[i]) == Lower(s[i])
    ensures PeeledTo(p, s, i + 1)
  {
    assert p[i..][1..] == p[i + 1..] && s[i..][1..] == s[i + 1..];
  }

  lemma PeeledResult(p: string, s: string, i: nat, res: int)
    requires i <= |p| && i <= |s| && PeeledTo(p, s, i) && Sound(p[i..], s[i..], res)
    ensures Sound(p, s, if res == -1 then -1 else i + res)
  {
  }

  /** A matched prefix lies inside the string. */
  lemma {:induction false} MatchInside(p: string, s: string, n: nat)
    requires Matches(p, s, n)
    ensures n <= |s|
    decreases |p|
  {
    if p != "" && p[0] != '$' {
      if p[0] == '*' && |p| > 1 && p[1] == '*' {
        var k :| 0 <= k <= n && k <= |s| && Matches(p[2..], s[k..], n - k);
        MatchInside(p[2..], s[k..], n - k);
      } else if p[0] == '*' {
        var k :| 0 <= k <= n && k <= |s| && '/' !in s[..k] && Matches(p[1..], s[k..], n - k);
        MatchInside(p[1..], s[k..], n - k);
      } else {
        MatchInside(p[1..], s[1..], n - 1);
      }
    }
  }

  /** What a star (of either kind) in front of rest may swallow: at most limit characters of s. */
  ghost predicate StarMeans(p: string, s: string, rest: string, limit: nat)
    requires limit <= |s|
  {
    forall n: nat :: Matches(p, s, n) <==> exists k :: 0 <= k <= n && k <= limit && Matches(rest, s[k..], n - k)
  }

  lemma SingleStarMeans(p: string, star: nat, s: string)
    requires star < |p| && p[star] == '*' && (star + 1 < |p| ==> p[star + 1] != '*')
    ensures StarMeans(p[star..], s, p[star + 1..], Span(s))
  {
    var limit := Span(s);
    assert p[star..][1..] == p[star + 1..];
    forall k | 0 <= k <= |s| ensures '/' !in s[..k] <==> k <= limit {
      if k > limit {
        assert s[..k][limit] == '/';
      } else {
        assert s[..k] == s[..limit][..k];
      }
    }
  }

  lemma DoubleStarMeans(p: string, star: nat, s: string)
    requires star + 1 < |p| && p[star] == p[star + 1] == '*'
    ensures StarMeans(p[star..], s, p[star + 2..], |s|)
  {
    assert p[star..][2..] == p[star + 2..];
  }

  lemma FinalStar(p: string, s: string, limit: nat)
    requires limit <= |s| && StarMeans(p, s, "", limit)
    ensures Sound(p, s, limit)
  {
    assert Matches("", s[limit..], 0);
  }

  /** The longest swallow that lets rest match gives a sound result for the starred pattern. */
  lemma StarResult(p: string, s: string, rest: string, limit: nat, len: nat, res: int)
    requires limit <= |s| && len <= limit && StarMeans(p, s, rest, limit)
    requires forall k :: len < k <= limit ==> NoMatch(rest, s[k..])
    requires Sound(rest, s[len..], res) && (res == -1 ==> len == 0)
    ensures Sound(p, s, if res == -1 then -1 else res + len)
  {
    forall n: nat | Matches(p, s, n)
      ensures res != -1 && (res + len == 0 ==> n == 0)
    {
      var k :| 0 <= k <= n && k <= limit && Matches(rest, s[k..], n - k);
      if k > len {
        assert NoMatch(rest, s[k..]);
      }
    }
  }

  lemma FirstBarFindsBar(p: string)
    ensures FirstBar(p) < |p| <==> '|' in p
  {
    var b := FirstBar(p);
    if b < |p| {
      assert p[b] in p;
    } else {
      assert p[..b] == p;
    }
  }

  lemma SingleAlternative(p: string)
    requires '|' !in p
    ensures FirstBar(p) == |p| && Alternatives(p) == [p]
  {
    FirstBarFindsBar(p);
  }

  /** The do loop behind a star: the rest of the pattern is tried after the longest run the star
      may swallow, then after ever shorter ones. */
  method MatchAfterStar(rest: string, next: char, str: string, limit: nat, ghost starred: string)
    returns (res: int)
    requires '\0' !in rest && '|' !in rest && '\0' !in str && next != '*'
    requires limit <= |str| && StarMeans(starred, str, rest, limit)
    ensures Sound(starred, str, res)
    decreases |rest|, 3
  {
    var len := limit;
    res := MatchPrefix(rest, next, str[len..]);
    while res == -1 && len > 0
      invariant len <= limit
      invariant Sound(rest, str[len..], res)
      invariant forall k :: len < k <= limit ==> NoMatch(rest, str[k..])
    {
      len := len - 1;
      res := MatchPrefix(rest, next, str[len..]);
    }
    StarResult(starred, str, rest, limit, len, res);
    return if res == -1 then -1 else res + len;
  }

  /** The main loop, for a pattern without alternatives. */
  method MatchPlain(pattern: string, next: char, str: string) returns (res: int)
    requires '\0' !in pattern && '|' !in pattern && '\0' !in str && next != '*'
    ensures Sound(pattern, str, res)
    decreases |pattern|, 1
  {
    var i, j := 0, 0;
    assert pattern[0..] == pattern && str[0..] == str;
    while i < |pattern|
      invariant 0 <= i == j <= |pattern| && j <= |str|
      invariant PeeledTo(pattern, str, i)
    {
      var c := if j < |str| then str[j] else '\0';
      assert pattern[i..][0] == pattern[i];
      if pattern[i] == '?' && c != '\0' {
        PeelOne(pattern, str, i);
      } else if pattern[i] == '$' {
        return if c == '\0' then j else -1;
      } else if pattern[i] == '*' {
        res := MatchStarAt(pattern, next, str, i);
        return;
      } else if Lower(pattern[i]) != Lower(c) {
        return -1;
      } else {
        PeelOne(pattern, str, i);
      }
      i, j := i + 1, j + 1;
    }
    return j;
  }

  /** The branch of the main loop that has reached a star. */
  method MatchStarAt(pattern: string, next: char, str: string, star: nat) returns (res: int)
    requires '\0' !in pattern && '|' !in pattern && '\0' !in str && next != '*'
    requires star < |pattern| && star <= |str| && pattern[star] == '*' && PeeledTo(pattern, str, star)
    ensures Sound(pattern, str, res)
    decreases |pattern|, 0
  {
    var i, j := star + 1, star;
    var left := str[j..];
    var len: nat;
    if (if i < |pattern| then pattern[i] else next) == '*' {
      DoubleStarMeans(pattern, star, left);
      i := i + 1;
      len := |left|;
    } else {
      SingleStarMeans(pattern, star, left);
      len := Span(left);
    }
    if i == |pattern| {
      FinalStar(pattern[star..], left, len);
      res := len;
    } else {
      res := MatchAfterStar(pattern[i..], next, left, len, pattern[star..]);
    }
    PeeledResult(pattern, str, star, res);
    return if res == -1 then -1 else j + res;
  }

  /** Pattern bytes are the given sequence; next is the byte the C string holds right behind them,
      which the code reads after a final star.  Every caller passes a whole string, an item of a
      comma-separated list or an alternative, so that byte is never a star. */
  method MatchPrefix(pattern: string, next: char, str: string) returns (res: int)
    requires '\0' !in pattern && '\0' !in str && next != '*'
    ensures '|' !in pattern ==> Sound(pattern, str, res)
    ensures -1 <= res <= |str|
    ensures res > 0 ==> exists alt :: alt in Alternatives(pattern) && Matches(alt, str, res)
    ensures res <= 0 ==> forall alt, n: nat :: alt in Alternatives(pattern) && n > 0 ==> !Matches(alt, str, n)
    decreases |pattern|, 2
  {
    var bar := FirstBar(pattern);
    if bar < |pattern| {
      FirstBarFindsBar(pattern);
      SingleAlternative(pattern[..bar]);
      res := MatchPrefix(pattern[..bar], '|', str);
      if res <= 0 {
        res := MatchPrefix(pattern[bar + 1..], next, str);
      }
    } else {
      assert pattern[..bar] == pattern;
      SingleAlternative(pattern);
      res := MatchPlain(pattern, next, str);
    }
  }

  // -------------------------------------------------- what the patterns mean to their users

  predicate Plain(c: char) {
    c != '?' && c != '$' && c != '*' && c != '|'
  }

  predicate EqualIgnoringCase(a: string, b: string) {
    |a| == |b| && forall k :: 0 <= k < |a| ==> Lower(a[k]) == Lower(b[k])
  }

  lemma {:induction false} LiteralToTheEnd(w: string, s: string, n: nat)
    requires forall c :: c in w ==> Plain(c)
    ensures Matches(w + "$", s, n) <==> n == |s| && EqualIgnoringCase(w, s)
    decreases |w|
  {
    if w == "" {
      assert w + "$" == "$";
    } else {
      var p := w + "$";
      assert p[0] == w[0] && p[1..] == w[1..] + "$" && Plain(w[0]);
      if s != "" && n > 0 {
        LiteralToTheEnd(w[1..], s[1..], n - 1);
        assert EqualIgnoringCase(w, s) <==> Lower(w[0]) == Lower(s[0]) && EqualIgnoringCase(w[1..], s[1..]) by {
          if Lower(w[0]) == Lower(s[0]) && EqualIgnoringCase(w[1..], s[1..]) {
            forall k | 0 <= k < |w| ensures Lower(w[k]) == Lower(s[k]) {
              if k > 0 {
                assert w[k] == w[1..][k - 1] && s[k] == s[1..][k - 1];
              }
            }
          }
        }
      }
    }
  }

  /** Characters are the same in either case exactly if they are one, or the same letter in its two cases. */
  lemma SameInEitherCase(a: char, b: char)
    ensures Lower(a) == Lower(b) <==>
      || a == b
      || ('A' <= a <= 'Z' && b as int == a as int + 32)
      || ('A' <= b <= 'Z' && a as int == b as int + 32)
  {
  }

  /** The server's own use of patterns such as "**.lp$": two stars, a suffix, the end.  Such a
      pattern matches a whole path, and exactly the paths that end in the suffix. */
  lemma SuffixPattern(w: string, s: string, n: nat)
    requires forall c :: c in w ==> Plain(c)
    ensures Matches("**" + w + "$", s, n)
       <==> n == |s| && |w| <= |s| && EqualIgnoringCase(w, s[|s| - |w|..])
  {
    var p := "**" + w + "$";
    assert p[0] == p[1] == '*' && p[2..] == w + "$";
    forall k | 0 <= k <= n && k <= |s|
      ensures Matches(w + "$", s[k..], n - k) <==> n == |s| && EqualIgnoringCase(w, s[k..])
    {
      LiteralToTheEnd(w, s[k..], n - k);
    }
    if n == |s| && |w| <= |s| && EqualIgnoringCase(w, s[|s| - |w|..]) {
      assert Matches(w + "$", s[|s| - |w|..], n - (|s| - |w|));
    }
  }

  /** A single star, a suffix and the end match a whole string, and exactly those that end in the suffix and
      have no slash in front of it. */
  lemma SingleStarPattern(w: string, s: string, n: nat)
    requires (forall c :: c in w ==> Plain(c))
    ensures Matches("*" + w + "$", s, n)
       <==> n == |s| && |w| <= |s| && EqualIgnoringCase(w, s[|s| - |w|..]) && '/' !in s[..|s| - |w|]
  {
    var p := "*" + w + "$";
    assert p[0] == '*' && p[1..] == w + "$";
    assert p[1] == (w + "$")[0];
    if w != "" {
      assert Plain(w[0]);
    }
    forall k | 0 <= k <= n && k <= |s|
      ensures Matches(w + "$", s[k..], n - k) <==> n == |s| && EqualIgnoringCase(w, s[k..])
    {
      LiteralToTheEnd(w, s[k..], n - k);
    }
    if n == |s| && |w| <= |s| && EqualIgnoringCase(w, s[|s| - |w|..]) {
      assert Matches(w + "$", s[|s| - |w|..], n - (|s| - |w|));
    }
  }
}
