/**
 * Character-level text operations that the report renderer of app.py relies on:
 * the Latin-1 cleaning of the report text, Python's `str.upper` on that text,
 * ASCII case folding and Python's substring test `w in s`.
 * Strings are sequences of Unicode code points, as Python's `str` is.
 */
module Text {

  /** A code point that the Latin-1 codec can encode. */
  predicate IsLatin1(c: char) {
    c as int <= 0xFF
  }

  predicate AllLatin1(s: string) {
    forall i :: 0 <= i < |s| ==> IsLatin1(s[i])
  }

  /**
   * `s.encode('latin-1', 'ignore').decode('latin-1')`: every code point above
   * U+00FF is dropped, every other one is kept in place. Never fails.
   */
  function Clean(s: string): (r: string)
    ensures |r| <= |s|
    ensures AllLatin1(r)
    ensures AllLatin1(s) ==> r == s
    ensures !AllLatin1(s) ==> |r| < |s|
  {
    if s == [] then []
    else if IsLatin1(s[0]) then [s[0]] + Clean(s[1..])
    else Clean(s[1..])
  }

  /** `r` can be obtained from `s` by deleting characters. */
  predicate IsSubsequence(r: string, s: string)
    decreases |s|
  {
    r == [] ||
    (s != [] && ((r[0] == s[0] && IsSubsequence(r[1..], s[1..])) || IsSubsequence(r, s[1..])))
  }

  /** Cleaning a concatenation cleans each part. */
  lemma {:induction false} CleanAppend(a: string, b: string)
    ensures Clean(a + b) == Clean(a) + Clean(b)
  {
    if a == [] {
      assert a + b == b;
    } else {
      assert (a + b)[0] == a[0];
      assert (a + b)[1..] == a[1..] + b;
      CleanAppend(a[1..], b);
    }
  }

  /** Cleaning keeps every Latin-1 character as often as it occurs, and no other. */
  lemma {:induction false} CleanCounts(s: string, c: char)
    ensures multiset(Clean(s))[c] == if IsLatin1(c) then multiset(s)[c] else 0
  {
    if s != [] {
      CleanCounts(s[1..], c);
      assert s == [s[0]] + s[1..];
      assert multiset(s) == multiset([s[0]]) + multiset(s[1..]);
      if IsLatin1(s[0]) {
        assert multiset(Clean(s)) == multiset([s[0]]) + multiset(Clean(s[1..]));
      }
    }
  }

  /** The cleaned text holds exactly the Latin-1 characters of the input. */
  lemma CleanMembers(s: string, c: char)
    ensures c in Clean(s) <==> c in s && IsLatin1(c)
  {
    CleanCounts(s, c);
  }

  /** The cleaned text keeps the order of the characters it keeps. */
  lemma {:induction false} CleanIsSubsequence(s: string)
    ensures IsSubsequence(Clean(s), s)
  {
    if s != [] {
      CleanIsSubsequence(s[1..]);
      if IsLatin1(s[0]) {
        assert Clean(s)[0] == s[0] && Clean(s)[1..] == Clean(s[1..]);
      }
    }
  }

  /** Cleaning twice is cleaning once. */
  lemma CleanIdempotent(s: string)
    ensures Clean(Clean(s)) == Clean(s)
  {
  }

  /** Cleaning leaves a text unchanged exactly when all of it is Latin-1. */
  lemma CleanFixedPoints(s: string)
    ensures Clean(s) == s <==> AllLatin1(s)
  {
  }

  /** `str.upper` on one character, exact for every code point up to U+00FF. */
  function UpperChar(c: char): (r: string)
    ensures 1 <= |r| <= 2
    ensures |r| == 2 <==> c == '\U{DF}'
  {
    if 'a' <= c <= 'z' then [(c as int - 32) as char]
    else if c == '\U{B5}' then ['\U{39C}']
    else if c == '\U{DF}' then "SS"
    else if '\U{E0}' <= c <= '\U{FE}' && c != '\U{F7}' then [(c as int - 32) as char]
    else if c == '\U{FF}' then ['\U{178}']
    else [c]
  }

  /** `s.upper()`: the concatenation of the upper-case forms of the characters of `s`. */
  function Upper(s: string): (r: string)
    ensures |r| >= |s|
  {
    if s == [] then [] else UpperChar(s[0]) + Upper(s[1..])
  }

  /** The upper case is longer than the text by exactly its number of `ß`. */
  lemma {:induction false} UpperLength(s: string)
    ensures |Upper(s)| == |s| + multiset(s)['\U{DF}']
  {
    if s != [] {
      UpperLength(s[1..]);
      assert s == [s[0]] + s[1..];
    }
  }

  predicate NoAsciiLowercase(s: string) {
    forall i :: 0 <= i < |s| ==> !('a' <= s[i] <= 'z')
  }

  /** `str.upper` leaves no lower-case ASCII letter behind. */
  lemma {:induction false} UpperHasNoLowercase(s: string)
    ensures NoAsciiLowercase(Upper(s))
  {
    if s != [] {
      UpperHasNoLowercase(s[1..]);
      var p, q := UpperChar(s[0]), Upper(s[1..]);
      assert Upper(s) == p + q;
      forall i | 0 <= i < |p + q| ensures !('a' <= (p + q)[i] <= 'z') {
        if i >= |p| {
          assert (p + q)[i] == q[i - |p|];
        }
      }
    }
  }

  lemma {:induction false} UpperAppend(a: string, b: string)
    ensures Upper(a + b) == Upper(a) + Upper(b)
  {
    if a == [] {
      assert a + b == b;
    } else {
      assert (a + b)[0] == a[0];
      assert (a + b)[1..] == a[1..] + b;
      UpperAppend(a[1..], b);
    }
  }

  lemma UpperCharIdempotent(c: char)
    ensures Upper(UpperChar(c)) == UpperChar(c)
  {
    var u := UpperChar(c);
    if |u| == 1 {
      assert Upper(u) == UpperChar(u[0]) + Upper(u[1..]);
    } else {
      assert u == ['S', 'S'];
      assert Upper(u) == UpperChar('S') + Upper(['S']);
      assert Upper(['S']) == UpperChar('S') + Upper([]);
    }
  }

  /** Taking the upper case of an upper-cased text changes nothing. */
  lemma {:induction false} UpperIdempotent(s: string)
    ensures Upper(Upper(s)) == Upper(s)
  {
    if s != [] {
      UpperIdempotent(s[1..]);
      UpperCharIdempotent(s[0]);
      UpperAppend(UpperChar(s[0]), Upper(s[1..]));
    }
  }

  /** ASCII upper case: `a`..`z` to `A`..`Z`, everything else unchanged. */
  function AsciiUpper(c: char): (r: char)
  {
    if 'a' <= c <= 'z' then (c as int - 32) as char else c
  }

  /** ASCII lower case: `A`..`Z` to `a`..`z`, everything else unchanged. */
  function AsciiLower(c: char): (r: char)
  {
    if 'A' <= c <= 'Z' then (c as int + 32) as char else c
  }

  /** The ASCII upper case of every character, position by position. */
  function AsciiUpperAll(s: string): (r: string)
    ensures |r| == |s|
    ensures forall i :: 0 <= i < |s| ==> r[i] == AsciiUpper(s[i])
  {
    if s == [] then [] else [AsciiUpper(s[0])] + AsciiUpperAll(s[1..])
  }

  /** The ASCII lower case of every character, position by position. */
  function AsciiLowerAll(s: string): (r: string)
    ensures |r| == |s|
    ensures forall i :: 0 <= i < |s| ==> r[i] == AsciiLower(s[i])
  {
    if s == [] then [] else [AsciiLower(s[0])] + AsciiLowerAll(s[1..])
  }

  /** `s` and `t` differ at most in the case of ASCII letters. */
  predicate SameUpToAsciiCase(s: string, t: string) {
    AsciiUpperAll(s) == AsciiUpperAll(t)
  }

  /** `w` occurs in `s` starting at index `i`. */
  predicate OccursAt(s: string, w: string, i: int) {
    0 <= i <= |s| - |w| && s[i..i + |w|] == w
  }

  /** Python's `w in s` on strings. */
  function Contains(s: string, w: string): (b: bool)
    ensures b ==> |w| <= |s|
    ensures w == [] ==> b
  {
    assert w == [] ==> OccursAt(s, w, 0);
    exists i :: 0 <= i <= |s| - |w| && OccursAt(s, w, i)
  }

  /** A text that has `w` spliced into it contains `w`. */
  lemma ContainsSplice(a: string, w: string, b: string)
    ensures Contains(a + w + b, w)
  {
    assert OccursAt(a + w + b, w, |a|);
  }

  /** A letter that can occur in a keyword: an ASCII capital other than `S`. */
  predicate IsKeywordLetter(c: char) {
    'A' <= c <= 'Z' && c != 'S'
  }

  predicate KeywordShaped(w: string) {
    |w| > 0 && forall i :: 0 <= i < |w| ==> IsKeywordLetter(w[i])
  }

  /**
   * The only character whose upper case differs from its ASCII upper case in
   * length, `ß`, becomes `SS`, which holds no keyword letter.
   */
  lemma UpperCharAgreesWithFold(c: char)
    ensures IsKeywordLetter(AsciiUpper(c)) ==> UpperChar(c) == [AsciiUpper(c)]
    ensures !IsKeywordLetter(AsciiUpper(c)) ==>
      forall k :: 0 <= k < |UpperChar(c)| ==> !IsKeywordLetter(UpperChar(c)[k])
  {
  }

  predicate IsAscii(c: char) {
    c as int < 0x80
  }

  /** On ASCII text `str.upper` is the ASCII upper case. */
  lemma {:induction false} UpperOfAscii(m: string)
    requires forall i :: 0 <= i < |m| ==> IsAscii(m[i])
    ensures Upper(m) == AsciiUpperAll(m)
  {
    if m != [] {
      UpperOfAscii(m[1..]);
      assert AsciiUpperAll(m) == [AsciiUpper(m[0])] + AsciiUpperAll(m[1..]);
    }
  }

  /** Two characters equal up to ASCII case have the same upper case. */
  lemma UpperCharIgnoresAsciiCase(c: char, d: char)
    requires AsciiUpper(c) == AsciiUpper(d)
    ensures UpperChar(c) == UpperChar(d)
  {
  }

  /** Two texts equal up to ASCII case have the same upper case. */
  lemma {:induction false} UpperIgnoresAsciiCase(s: string, t: string)
    requires SameUpToAsciiCase(s, t)
    ensures Upper(s) == Upper(t)
  {
    if s != [] {
      assert AsciiUpperAll(s)[0] == AsciiUpperAll(t)[0];
      UpperCharIgnoresAsciiCase(s[0], t[0]);
      assert AsciiUpperAll(s[1..]) == AsciiUpperAll(s)[1..];
      assert AsciiUpperAll(t[1..]) == AsciiUpperAll(t)[1..];
      UpperIgnoresAsciiCase(s[1..], t[1..]);
    }
  }

  /** A prefix of keyword letters of `Upper(u)` is a prefix of the ASCII fold of `u`. */
  lemma {:induction false} UpperPrefixBack(u: string, v: string)
    requires forall i :: 0 <= i < |v| ==> IsKeywordLetter(v[i])
    requires |v| <= |Upper(u)| && Upper(u)[..|v|] == v
    ensures |v| <= |u| && AsciiUpperAll(u)[..|v|] == v
  {
    if v != [] {
      var p := UpperChar(u[0]);
      assert Upper(u) == p + Upper(u[1..]);
      UpperCharAgreesWithFold(u[0]);
      assert Upper(u)[0] == p[0] == v[0];
      assert p == [AsciiUpper(u[0])];
      assert Upper(u[1..])[..|v| - 1] == v[1..];
      UpperPrefixBack(u[1..], v[1..]);
      assert AsciiUpperAll(u) == [AsciiUpper(u[0])] + AsciiUpperAll(u[1..]);
    }
  }

  /** An occurrence past the end of `p` is an occurrence in `q`. */
  lemma OccursInTail(p: string, q: string, w: string, j: int)
    requires OccursAt(p + q, w, j) && j >= |p|
    ensures OccursAt(q, w, j - |p|)
  {
    assert (p + q)[j..j + |w|] == q[j - |p|..j - |p| + |w|];
  }

  /** An occurrence in `q` is an occurrence in `p + q`, shifted by `|p|`. */
  lemma OccursShifted(p: string, q: string, w: string, i: int)
    requires OccursAt(q, w, i)
    ensures OccursAt(p + q, w, i + |p|)
  {
    assert (p + q)[i + |p|..i + |p| + |w|] == q[i..i + |w|];
  }

  /** A keyword found in `Upper(t)` is found in the ASCII fold of `t`. */
  lemma {:induction false} UpperContainsBack(t: string, w: string)
    requires KeywordShaped(w) && Contains(Upper(t), w)
    ensures Contains(AsciiUpperAll(t), w)
  {
    var j :| 0 <= j <= |Upper(t)| - |w| && OccursAt(Upper(t), w, j);
    var p, q := UpperChar(t[0]), Upper(t[1..]);
    assert Upper(t) == p + q;
    var f := AsciiUpperAll(t);
    assert f == [AsciiUpper(t[0])] + AsciiUpperAll(t[1..]);
    if j >= |p| {
      OccursInTail(p, q, w, j);
      UpperContainsBack(t[1..], w);
      var i :| 0 <= i <= |AsciiUpperAll(t[1..])| - |w| && OccursAt(AsciiUpperAll(t[1..]), w, i);
      OccursShifted([AsciiUpper(t[0])], AsciiUpperAll(t[1..]), w, i);
    } else {
      UpperKeywordStart(t, w, j);
      assert q[..|w| - 1] == w[1..];
      UpperPrefixBack(t[1..], w[1..]);
      assert OccursAt(f, w, 0);
    }
  }

  /** A keyword occurrence cannot start inside the upper case of a non-letter. */
  lemma UpperKeywordStart(t: string, w: string, j: int)
    requires KeywordShaped(w) && OccursAt(Upper(t), w, j) && t != [] && j < |UpperChar(t[0])|
    ensures j == 0 && UpperChar(t[0]) == [AsciiUpper(t[0])]
  {
    var p := UpperChar(t[0]);
    assert Upper(t) == p + Upper(t[1..]);
    assert w[0] == Upper(t)[j] == p[j];
    UpperCharAgreesWithFold(t[0]);
  }

  /** A keyword found in the ASCII fold of `t` is found in `Upper(t)`. */
  lemma UpperContainsForward(t: string, w: string)
    requires KeywordShaped(w) && Contains(AsciiUpperAll(t), w)
    ensures Contains(Upper(t), w)
  {
    var i :| 0 <= i <= |AsciiUpperAll(t)| - |w| && OccursAt(AsciiUpperAll(t), w, i);
    var a, m, b := t[..i], t[i..i + |w|], t[i + |w|..];
    assert t == a + m + b;
    assert AsciiUpperAll(m) == w by {
      assert AsciiUpperAll(t)[i..i + |w|] == w;
    }
    forall k | 0 <= k < |m| ensures IsAscii(m[k]) {
      assert AsciiUpper(m[k]) == w[k];
    }
    UpperOfAscii(m);
    UpperAppend(a + m, b);
    UpperAppend(a, m);
    ContainsSplice(Upper(a), w, Upper(b));
  }

  /**
   * Searching `Upper(t)` for a keyword finds the same as searching the ASCII
   * upper case of `t`. On all-Latin-1 text, such as the cleaned report, `Upper`
   * is `str.upper`, so there full case mapping never creates or destroys a
   * match. Above U+00FF `str.upper` can create one (`\U{FB01}` becomes `FI`);
   * `Upper` keeps those characters unchanged.
   */
  lemma UpperMatchesAsciiFold(t: string, w: string)
    requires KeywordShaped(w)
    ensures Contains(Upper(t), w) <==> Contains(AsciiUpperAll(t), w)
  {
    if Contains(AsciiUpperAll(t), w) {
      UpperContainsForward(t, w);
    }
    if Contains(Upper(t), w) {
      UpperContainsBack(t, w);
    }
  }

  /** ASCII folding and cleaning commute: folding never moves a character across U+00FF. */
  lemma {:induction false} FoldCleanCommute(s: string)
    ensures AsciiUpperAll(Clean(s)) == Clean(AsciiUpperAll(s))
  {
    if s != [] {
      FoldCleanCommute(s[1..]);
      assert AsciiUpperAll(s) == [AsciiUpper(s[0])] + AsciiUpperAll(s[1..]);
      assert AsciiUpperAll(s)[1..] == AsciiUpperAll(s[1..]);
      if IsLatin1(s[0]) {
        assert AsciiUpperAll([s[0]] + Clean(s[1..])) == [AsciiUpper(s[0])] + AsciiUpperAll(Clean(s[1..]));
      }
    }
  }

  /** Cleaning cannot break an occurrence of a Latin-1 word. */
  lemma CleanKeepsOccurrence(s: string, w: string)
    requires AllLatin1(w) && Contains(s, w)
    ensures Contains(Clean(s), w)
  {
    var i :| 0 <= i <= |s| - |w| && OccursAt(s, w, i);
    assert 0 <= i <= |s| - |w| && s[i..i + |w|] == w;
    var a, b := s[..i], s[i + |w|..];
    assert s == a + w + b;
    CleanAppend(a + w, b);
    CleanAppend(a, w);
    ContainsSplice(Clean(a), w, Clean(b));
  }
}
