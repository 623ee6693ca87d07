/** String operations the readers and parsers rely on: Python's `str.split(sep)`,
    `str.split()`, `str.splitlines()`, `str.rstrip()`, `str.strip()`, `str.find()`
    and `sep.join(...)`, and Rust's `str::split(char)` and `str::trim()`. */
module Text {

  /** Whitespace as Python's `str.split()` / `str.strip()` see it. */
  predicate IsPyWhitespace(c: char) {
    c == ' ' || ('\t' <= c <= '\r') || ('\U{1c}' <= c <= '\U{1f}') || c == '\U{85}' ||
    c == '\U{a0}' || c == '\U{1680}' || ('\U{2000}' <= c <= '\U{200a}') ||
    c == '\U{2028}' || c == '\U{2029}' || c == '\U{202f}' || c == '\U{205f}' || c == '\U{3000}'
  }

  /** Whitespace as Rust's `char::is_whitespace` sees it (used by `str::trim`). */
  predicate IsRustWhitespace(c: char) {
    c == ' ' || ('\t' <= c <= '\r') || c == '\U{85}' ||
    c == '\U{a0}' || c == '\U{1680}' || ('\U{2000}' <= c <= '\U{200a}') ||
    c == '\U{2028}' || c == '\U{2029}' || c == '\U{202f}' || c == '\U{205f}' || c == '\U{3000}'
  }

  /** Line boundaries of Python's `str.splitlines()` ("\r\n" counts as one). */
  predicate IsLineBoundary(c: char) {
    ('\n' <= c <= '\r') || ('\U{1c}' <= c <= '\U{1e}') || c == '\U{85}' ||
    c == '\U{2028}' || c == '\U{2029}'
  }

  function Count(s: string, c: char): nat {
    if s == [] then 0 else (if s[0] == c then 1 else 0) + Count(s[1..], c)
  }

  /** `s.split(sep)` (Python, one-character separator) and `s.split(sep)` (Rust):
      every separator ends a piece, empty pieces are kept. */
  function Split(s: string, sep: char): (parts: seq<string>)
    ensures |parts| == Count(s, sep) + 1
    ensures forall i :: 0 <= i < |parts| ==> sep !in parts[i]
  {
    if s == [] then [""]
    else if s[0] == sep then [""] + Split(s[1..], sep)
    else
      var rest := Split(s[1..], sep);
      [[s[0]] + rest[0]] + rest[1..]
  }

  /** `sep.join(parts)`. */
  function Join(parts: seq<string>, sep: char): string {
    if parts == [] then ""
    else if |parts| == 1 then parts[0]
    else parts[0] + [sep] + Join(parts[1..], sep)
  }

  /** Splitting undoes joining and joining undoes splitting. */
  lemma {:induction false} JoinSplit(s: string, sep: char)
    ensures Join(Split(s, sep), sep) == s
  {
    if s == [] {
    } else if s[0] == sep {
      JoinSplit(s[1..], sep);
      assert s == [sep] + s[1..];
    } else {
      var rest := Split(s[1..], sep);
      JoinSplit(s[1..], sep);
      if |rest| == 1 {
        assert s == [s[0]] + s[1..];
      } else {
        var parts := Split(s, sep);
        assert parts[1..] == rest[1..];
        calc {
          Join(parts, sep);
          parts[0] + [sep] + Join(rest[1..], sep);
          [s[0]] + (rest[0] + [sep] + Join(rest[1..], sep));
          [s[0]] + Join(rest, sep);
          [s[0]] + s[1..];
          s;
        }
      }
    }
  }

  lemma {:induction false} SplitJoin(parts: seq<string>, sep: char)
    requires |parts| >= 1
    requires forall i :: 0 <= i < |parts| ==> sep !in parts[i]
    ensures Split(Join(parts, sep), sep) == parts
  {
    if |parts| == 1 {
      SplitNoSep(parts[0], sep);
    } else {
      SplitJoin(parts[1..], sep);
      SplitPrefix(parts[0], Join(parts[1..], sep), sep);
      assert Join(parts, sep) == parts[0] + ([sep] + Join(parts[1..], sep));
      assert [parts[0]] + parts[1..] == parts;
    }
  }

  lemma {:induction false} SplitNoSep(s: string, sep: char)
    requires sep !in s
    ensures Split(s, sep) == [s]
  {
    if s != [] {
      SplitNoSep(s[1..], sep);
      assert s == [s[0]] + s[1..];
    }
  }

  /** A separator-free prefix followed by a separator becomes the first piece. */
  lemma {:induction false} SplitPrefix(a: string, rest: string, sep: char)
    requires sep !in a
    ensures Split(a + [sep] + rest, sep) == [a] + Split(rest, sep)
  {
    if a == [] {
      assert a + [sep] + rest == [sep] + rest;
      assert ([sep] + rest)[1..] == rest;
    } else {
      assert (a + [sep] + rest)[1..] == a[1..] + [sep] + rest;
      SplitPrefix(a[1..], rest, sep);
      assert [a[0]] + a[1..] == a;
    }
  }

  /** Appending a separator adds an empty last piece. */
  lemma {:induction false} SplitSnocSep(s: string, sep: char)
    ensures Split(s + [sep], sep) == Split(s, sep) + [""]
  {
    if s == [] {
      assert [sep][1..] == [];
    } else {
      SplitSnocSep(s[1..], sep);
      var t := s + [sep];
      assert t[0] == s[0] && t[1..] == s[1..] + [sep];
    }
  }

  /** Appending any other character extends the last piece. */
  lemma {:induction false} SplitSnoc(s: string, c: char, sep: char)
    requires c != sep
    ensures var parts := Split(s, sep);
      Split(s + [c], sep) == parts[..|parts| - 1] + [parts[|parts| - 1] + [c]]
  {
    if s == [] {
      assert [c][1..] == [];
      assert Split([c], sep) == [[c] + ""];
      assert [c] + "" == "" + [c];
    } else {
      SplitSnoc(s[1..], c, sep);
      var t := s + [c];
      assert t[0] == s[0] && t[1..] == s[1..] + [c];
      var rest := Split(s[1..], sep);
      if s[0] == sep {
        ExtendLastAfter([""], rest, c);
      } else {
        ExtendLastMerged([s[0]], rest, c);
      }
    }
  }

  /** Extending the last piece commutes with putting pieces in front. */
  lemma ExtendLastAfter(front: seq<string>, rest: seq<string>, c: char)
    requires |rest| >= 1
    ensures var parts := front + rest;
      front + (rest[..|rest| - 1] + [rest[|rest| - 1] + [c]]) == parts[..|parts| - 1] + [parts[|parts| - 1] + [c]]
  {
    var parts := front + rest;
    assert parts[..|parts| - 1] == front + rest[..|rest| - 1];
  }

  /** Extending the last piece commutes with merging text into the first. */
  lemma ExtendLastMerged(head: string, rest: seq<string>, c: char)
    requires |rest| >= 1
    ensures var extended := rest[..|rest| - 1] + [rest[|rest| - 1] + [c]];
      var parts := [head + rest[0]] + rest[1..];
      [head + extended[0]] + extended[1..] == parts[..|parts| - 1] + [parts[|parts| - 1] + [c]]
  {
    if |rest| == 1 {
      assert head + (rest[0] + [c]) == head + rest[0] + [c];
    } else {
      var parts := [head + rest[0]] + rest[1..];
      assert parts[..|parts| - 1] == [head + rest[0]] + rest[1..|rest| - 1];
    }
  }

  /** Index of the first line boundary of s, or |s|. */
  function FirstBoundary(s: string): (k: nat)
    ensures k <= |s|
    ensures k < |s| ==> IsLineBoundary(s[k])
    ensures forall i :: 0 <= i < k ==> !IsLineBoundary(s[i])
  {
    if s == [] || IsLineBoundary(s[0]) then 0 else 1 + FirstBoundary(s[1..])
  }

  /** `s.splitlines()`: lines without their terminators; no trailing empty line. */
  function SplitLines(s: string): (lines: seq<string>)
    ensures forall i, j :: 0 <= i < |lines| && 0 <= j < |lines[i]| ==> !IsLineBoundary(lines[i][j])
    decreases |s|
  {
    if s == [] then []
    else
      var k := FirstBoundary(s);
      if k == |s| then [s]
      else
        var width := if s[k] == '\r' && k + 1 < |s| && s[k + 1] == '\n' then 2 else 1;
        [s[..k]] + SplitLines(s[k + width..])
  }

  predicate OnlyNewlineBoundaries(s: string) {
    forall i :: 0 <= i < |s| && IsLineBoundary(s[i]) ==> s[i] == '\n'
  }

  /** On text whose only line boundary is '\n', Python's `splitlines()` is Rust's
      `split('\n')` without the empty piece after a final newline. */
  lemma {:induction false} SplitLinesIsSplit(s: string)
    requires OnlyNewlineBoundaries(s)
    ensures s == [] ==> SplitLines(s) == []
    ensures s != [] && s[|s| - 1] == '\n' ==>
      SplitLines(s) == Split(s, '\n')[..|Split(s, '\n')| - 1]
    ensures s != [] && s[|s| - 1] != '\n' ==> SplitLines(s) == Split(s, '\n')
    decreases |s|
  {
    if s != [] {
      var k := FirstBoundary(s);
      if k == |s| {
        SplitNoSep(s, '\n');
      } else {
        assert s[k] == '\n';
        var rest := s[k + 1..];
        assert s == s[..k] + ['\n'] + rest;
        assert '\n' !in s[..k];
        SplitPrefix(s[..k], rest, '\n');
        assert OnlyNewlineBoundaries(rest) by {
          forall i | 0 <= i < |rest| && IsLineBoundary(rest[i]) ensures rest[i] == '\n' {
            assert rest[i] == s[k + 1 + i];
          }
        }
        SplitLinesIsSplit(rest);
        if rest == [] {
          assert Split(rest, '\n') == [""];
        } else {
          assert s[|s| - 1] == rest[|rest| - 1];
        }
      }
    }
  }

  /** Tokens of `s.split()`: maximal runs of non-whitespace characters. */
  function SplitWhitespace(s: string): (tokens: seq<string>)
    ensures forall i :: 0 <= i < |tokens| ==> |tokens[i]| > 0
    ensures forall i, j :: 0 <= i < |tokens| && 0 <= j < |tokens[i]| ==> !IsPyWhitespace(tokens[i][j])
    decreases |s|
  {
    if s == [] then []
    else if IsPyWhitespace(s[0]) then SplitWhitespace(s[1..])
    else
      var k := TokenEnd(s);
      [s[..k]] + SplitWhitespace(s[k..])
  }

  /** Length of the leading run of non-whitespace characters of s. */
  function TokenEnd(s: string): (k: nat)
    ensures k <= |s|
    ensures k < |s| ==> IsPyWhitespace(s[k])
    ensures forall i :: 0 <= i < k ==> !IsPyWhitespace(s[i])
  {
    if s == [] || IsPyWhitespace(s[0]) then 0 else 1 + TokenEnd(s[1..])
  }

  predicate AllPyWhitespace(w: string) {
    forall i :: 0 <= i < |w| ==> IsPyWhitespace(w[i])
  }

  predicate IsToken(a: string) {
    a != [] && forall i :: 0 <= i < |a| ==> !IsPyWhitespace(a[i])
  }

  /** Leading whitespace is skipped by `split()`. */
  lemma {:induction false} SplitWhitespaceSkip(w: string, t: string)
    requires AllPyWhitespace(w)
    ensures SplitWhitespace(w + t) == SplitWhitespace(t)
  {
    if w == [] {
      assert w + t == t;
    } else {
      assert (w + t)[0] == w[0] && (w + t)[1..] == w[1..] + t;
      SplitWhitespaceSkip(w[1..], t);
    }
  }

  lemma {:induction false} TokenEndOf(a: string, t: string)
    requires forall i :: 0 <= i < |a| ==> !IsPyWhitespace(a[i])
    requires t == [] || IsPyWhitespace(t[0])
    ensures TokenEnd(a + t) == |a|
  {
    if a != [] {
      assert (a + t)[1..] == a[1..] + t;
      TokenEndOf(a[1..], t);
    } else {
      assert a + t == t;
    }
  }

  /** A token followed by whitespace or the end is the first piece of `split()`. */
  lemma SplitWhitespaceToken(a: string, t: string)
    requires IsToken(a)
    requires t == [] || IsPyWhitespace(t[0])
    ensures SplitWhitespace(a + t) == [a] + SplitWhitespace(t)
  {
    TokenEndOf(a, t);
    assert (a + t)[..|a|] == a && (a + t)[|a|..] == t;
  }

  /** `(pre + a + mid + b + post).split() == [a, b]` around whitespace. */
  lemma SplitWhitespaceTwo(pre: string, a: string, mid: string, b: string, post: string)
    requires AllPyWhitespace(pre) && AllPyWhitespace(mid) && AllPyWhitespace(post) && mid != []
    requires IsToken(a) && IsToken(b)
    ensures SplitWhitespace(pre + a + mid + b + post) == [a, b]
  {
    ConcatRight(pre, a, mid, b, post);
    SplitWhitespaceSkip(pre, a + (mid + (b + post)));
    SplitWhitespaceToken(a, mid + (b + post));
    SplitWhitespaceLast(mid, b, post);
  }

  lemma ConcatRight(s1: string, s2: string, s3: string, s4: string, s5: string)
    ensures s1 + s2 + s3 + s4 + s5 == s1 + (s2 + (s3 + (s4 + s5)))
  {
    assert s1 + s2 + s3 + s4 + s5 == (s1 + s2 + s3) + (s4 + s5);
    assert s1 + s2 + s3 + (s4 + s5) == (s1 + s2) + (s3 + (s4 + s5));
  }

  /** Whitespace, one token and trailing whitespace split into that token. */
  lemma SplitWhitespaceLast(mid: string, b: string, post: string)
    requires AllPyWhitespace(mid) && AllPyWhitespace(post) && IsToken(b)
    ensures SplitWhitespace(mid + (b + post)) == [b]
  {
    SplitWhitespaceSkip(mid, b + post);
    SplitWhitespaceToken(b, post);
    assert post == post + [];
    SplitWhitespaceSkip(post, []);
  }

  /** `s.rstrip()`: s without its trailing Python whitespace. */
  function RStrip(s: string): (r: string)
    ensures r <= s
    ensures r != [] ==> !IsPyWhitespace(r[|r| - 1])
    ensures forall i :: |r| <= i < |s| ==> IsPyWhitespace(s[i])
  {
    if s == [] || !IsPyWhitespace(s[|s| - 1]) then s else RStrip(s[..|s| - 1])
  }

  /** `s.lstrip()`. */
  function LStrip(s: string): (r: string)
    ensures |r| <= |s|
    ensures r == s[|s| - |r|..]
    ensures r != [] ==> !IsPyWhitespace(r[0])
    ensures forall i :: 0 <= i < |s| - |r| ==> IsPyWhitespace(s[i])
  {
    if s == [] || !IsPyWhitespace(s[0]) then s
    else
      var r := LStrip(s[1..]);
      assert s[1..][|s| - 1 - |r|..] == s[|s| - |r|..];
      r
  }

  /** `s.strip()`. */
  function Strip(s: string): string {
    LStrip(RStrip(s))
  }

  /** Rust's `s.trim()`. */
  function Trim(s: string): (r: string)
    ensures r != [] ==> !IsRustWhitespace(r[0]) && !IsRustWhitespace(r[|r| - 1])
    decreases |s|
  {
    if s == [] then s
    else if IsRustWhitespace(s[0]) then Trim(s[1..])
    else if IsRustWhitespace(s[|s| - 1]) then Trim(s[..|s| - 1])
    else s
  }

  /** r is s[i..i + |r|], and everything of s before and after it is
      Rust whitespace. */
  predicate TrimmedAt(s: string, r: string, i: nat) {
    i + |r| <= |s| && r == s[i..i + |r|] &&
    (forall j :: 0 <= j < i ==> IsRustWhitespace(s[j])) &&
    (forall j :: i + |r| <= j < |s| ==> IsRustWhitespace(s[j]))
  }

  /** What `trim()` keeps: the text between a leading and a trailing run of
      whitespace, so it removes whitespace and nothing else. */
  lemma {:induction false} TrimIsInfix(s: string) returns (i: nat)
    ensures TrimmedAt(s, Trim(s), i)
    decreases |s|
  {
    if s == [] {
      i := 0;
    } else if IsRustWhitespace(s[0]) {
      var k := TrimIsInfix(s[1..]);
      TrimmedFront(s, Trim(s[1..]), k);
      i := k + 1;
    } else if IsRustWhitespace(s[|s| - 1]) {
      i := TrimIsInfix(s[..|s| - 1]);
      TrimmedBack(s, Trim(s[..|s| - 1]), i);
    } else {
      i := 0;
    }
  }

  lemma TrimmedFront(s: string, r: string, k: nat)
    requires s != [] && IsRustWhitespace(s[0]) && TrimmedAt(s[1..], r, k)
    ensures TrimmedAt(s, r, k + 1)
  {
    var t := s[1..];
    assert s[k + 1..k + 1 + |r|] == t[k..k + |r|];
    forall j | 0 < j < k + 1 ensures IsRustWhitespace(s[j]) {
      assert s[j] == t[j - 1];
    }
    forall j | k + 1 + |r| <= j < |s| ensures IsRustWhitespace(s[j]) {
      assert s[j] == t[j - 1];
    }
  }

  lemma TrimmedBack(s: string, r: string, k: nat)
    requires s != [] && IsRustWhitespace(s[|s| - 1]) && TrimmedAt(s[..|s| - 1], r, k)
    ensures TrimmedAt(s, r, k)
  {
    var t := s[..|s| - 1];
    assert s[k..k + |r|] == t[k..k + |r|];
    forall j | 0 <= j < k ensures IsRustWhitespace(s[j]) {
      assert s[j] == t[j];
    }
    forall j | k + |r| <= j < |s| - 1 ensures IsRustWhitespace(s[j]) {
      assert s[j] == t[j];
    }
  }

  predicate OccursAt(s: string, pat: string, i: int) {
    0 <= i && i + |pat| <= |s| && s[i..i + |pat|] == pat
  }

  /** `s.find(pat)`: the lowest index where pat occurs, or -1. */
  function Find(s: string, pat: string): (r: int)
    ensures r == -1 || OccursAt(s, pat, r)
    ensures r >= 0 ==> forall i :: 0 <= i < r ==> !OccursAt(s, pat, i)
    ensures r == -1 ==> forall i :: !OccursAt(s, pat, i)
  {
    FindFrom(s, pat, 0)
  }

  function FindFrom(s: string, pat: string, from: nat): (r: int)
    ensures r == -1 || (from <= r && OccursAt(s, pat, r))
    ensures r >= 0 ==> forall i :: from <= i < r ==> !OccursAt(s, pat, i)
    ensures r == -1 ==> forall i :: from <= i ==> !OccursAt(s, pat, i)
    decreases |s| + 1 - from
  {
    if from + |pat| > |s| then -1
    else if s[from..from + |pat|] == pat then from
    else FindFrom(s, pat, from + 1)
  }

  /** Python's `s.startswith(prefix, p)`. */
  predicate StartsWithAt(s: string, prefix: string, p: int) {
    0 <= p <= |s| && prefix <= s[p..]
  }
}
