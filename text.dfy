/**
 The few Python `str` operations the pipeline relies on, over `seq<char>`:
 `rstrip("\n")`, `split(sep)`, `strip()` and an ASCII `lower()`/`upper()`.
 */
module Text {

  /** The characters Python's `str.isspace()` accepts, which `str.strip()` removes. */
  predicate IsSpace(c: char) {
    c == ' ' || ('\t' <= c <= '\r') || ('\U{1C}' <= c <= '\U{1F}')
    || c == '\U{85}' || c == '\U{A0}' || c == '\U{1680}'
    || ('\U{2000}' <= c <= '\U{200A}') || c == '\U{2028}' || c == '\U{2029}'
    || c == '\U{202F}' || c == '\U{205F}' || c == '\U{3000}'
  }

  /** `n` newline characters. */
  function Newlines(n: nat): (s: string)
    ensures |s| == n && forall i :: 0 <= i < n ==> s[i] == '\n'
  {
    seq(n, _ => '\n')
  }

  /** `s.rstrip("\n")`: every trailing newline is removed, and nothing else. */
  function RStripNewlines(s: string): (r: string)
    ensures r <= s
    ensures r == [] || r[|r| - 1] != '\n'
    ensures forall i :: |r| <= i < |s| ==> s[i] == '\n'
    decreases |s|
  {
    if s != [] && s[|s| - 1] == '\n' then RStripNewlines(s[..|s| - 1]) else s
  }

  /** Appending newlines does not change what `rstrip("\n")` gives. */
  lemma {:induction false} RStripNewlinesAppend(s: string, n: nat)
    ensures RStripNewlines(s + Newlines(n)) == RStripNewlines(s)
    decreases n
  {
    if n == 0 {
      assert s + Newlines(n) == s;
    } else {
      var t := s + Newlines(n);
      assert t[..|t| - 1] == s + Newlines(n - 1);
      RStripNewlinesAppend(s, n - 1);
    }
  }

  /** A string not ending in a newline is the result of `rstrip("\n")` on itself plus any newlines. */
  lemma RStripNewlinesExact(s: string, n: nat)
    requires s == [] || s[|s| - 1] != '\n'
    ensures RStripNewlines(s + Newlines(n)) == s
  {
    RStripNewlinesAppend(s, n);
  }

  /** The number of occurrences of `c` in `s`. */
  function Count(s: string, c: char): nat
  {
    if s == [] then 0 else (if s[0] == c then 1 else 0) + Count(s[1..], c)
  }

  lemma {:induction false} CountAppend(a: string, b: string, c: char)
    ensures Count(a + b, c) == Count(a, c) + Count(b, c)
    decreases |a|
  {
    if a == [] {
      assert a + b == b;
    } else {
      assert (a + b)[0] == a[0];
      assert (a + b)[1..] == a[1..] + b;
      CountAppend(a[1..], b, c);
    }
  }

  lemma {:induction false} CountZero(s: string, c: char)
    ensures Count(s, c) == 0 <==> c !in s
    decreases |s|
  {
    if s != [] {
      CountZero(s[1..], c);
      assert s == [s[0]] + s[1..];
    }
  }

  /** `s.split(sep)`: the pieces between separators, always at least one. */
  function Split(s: string, sep: char): (parts: seq<string>)
    ensures |parts| == Count(s, sep) + 1
    ensures forall i :: 0 <= i < |parts| ==> sep !in parts[i]
    decreases |s|
  {
    if s == [] then [[]]
    else
      var rest := Split(s[1..], sep);
      if s[0] == sep then [[]] + rest
      else [[s[0]] + rest[0]] + rest[1..]
  }

  /** `sep.join(parts)`. */
  function Join(parts: seq<string>, sep: char): string
  {
    if |parts| == 0 then []
    else if |parts| == 1 then parts[0]
    else parts[0] + [sep] + Join(parts[1..], sep)
  }

  /** Splitting loses nothing: joining the pieces again gives back the string. */
  lemma {:induction false} SplitJoin(s: string, sep: char)
    ensures Join(Split(s, sep), sep) == s
    decreases |s|
  {
    if s != [] {
      var rest := Split(s[1..], sep);
      SplitJoin(s[1..], sep);
      if s[0] == sep {
        assert ([[]] + rest)[1..] == rest;
      } else {
        var parts := [[s[0]] + rest[0]] + rest[1..];
        if |rest| > 1 {
          assert parts[1..] == rest[1..];
        }
        assert Join(parts, sep) == [s[0]] + Join(rest, sep);
        assert s == [s[0]] + s[1..];
      }
    }
  }

  /** A string without the separator splits into itself alone. */
  lemma {:induction false} SplitNone(p: string, sep: char)
    requires sep !in p
    ensures Split(p, sep) == [p]
    decreases |p|
  {
    if p != [] {
      assert sep !in p[1..] by { assert forall k :: 0 <= k < |p| - 1 ==> p[1..][k] == p[k + 1]; }
      SplitNone(p[1..], sep);
      assert p == [p[0]] + p[1..];
    }
  }

  /** A separator-free piece followed by the separator becomes the first piece. */
  lemma {:induction false} SplitAfter(p: string, x: string, sep: char)
    requires sep !in p
    ensures Split(p + [sep] + x, sep) == [p] + Split(x, sep)
    decreases |p|
  {
    var s := p + [sep] + x;
    if p == [] {
      assert s[1..] == x;
    } else {
      assert s[1..] == p[1..] + [sep] + x;
      assert sep !in p[1..] by { assert forall k :: 0 <= k < |p| - 1 ==> p[1..][k] == p[k + 1]; }
      SplitAfter(p[1..], x, sep);
      assert p == [p[0]] + p[1..];
    }
  }

  /** `s.lstrip()`: leading whitespace removed. */
  function TrimStart(s: string): (r: string)
    ensures |r| <= |s| && r == s[|s| - |r|..]
    ensures forall i :: 0 <= i < |s| - |r| ==> IsSpace(s[i])
    ensures r == [] || !IsSpace(r[0])
    decreases |s|
  {
    if s != [] && IsSpace(s[0]) then TrimStart(s[1..]) else s
  }

  /** `s.rstrip()`: trailing whitespace removed. */
  function TrimEnd(s: string): (r: string)
    ensures r <= s
    ensures forall i :: |r| <= i < |s| ==> IsSpace(s[i])
    ensures r == [] || !IsSpace(r[|r| - 1])
    decreases |s|
  {
    if s != [] && IsSpace(s[|s| - 1]) then TrimEnd(s[..|s| - 1]) else s
  }

  /** Every character of `t` is whitespace. */
  predicate AllSpace(t: string) {
    forall k :: 0 <= k < |t| ==> IsSpace(t[k])
  }

  /**
   `s.strip()`: the result is `s` with only whitespace cut off on either side,
   and it neither starts nor ends with whitespace.
   */
  function Strip(s: string): (r: string)
    ensures exists pre, post :: s == pre + r + post && AllSpace(pre) && AllSpace(post)
  {
    var t := TrimStart(s);
    var r := TrimEnd(t);
    StripPieces(s, t, r);
    r
  }

  /** Neither the first nor the last character of `x` is whitespace. */
  predicate Unpadded(x: string) {
    x == [] || (!IsSpace(x[0]) && !IsSpace(x[|x| - 1]))
  }

  /** What `strip()` returns neither starts nor ends with whitespace. */
  lemma StripEdges(s: string)
    ensures Unpadded(Strip(s))
  {
    var t := TrimStart(s);
    StripIsTrims(s);
    EdgesKept(t, TrimEnd(t));
  }

  /** `strip()` is `rstrip()` after `lstrip()`. */
  lemma StripIsTrims(s: string)
    ensures Strip(s) == TrimEnd(TrimStart(s))
  {
  }

  /** A prefix of a string that does not start with whitespace, itself not ending in whitespace. */
  lemma EdgesKept(t: string, r: string)
    requires t == [] || !IsSpace(t[0])
    requires r <= t && (r == [] || !IsSpace(r[|r| - 1]))
    ensures Unpadded(r)
  {
    if r != [] {
      assert r[0] == t[0];
    }
  }

  /** What the two trims leave behind: a whitespace prefix and a whitespace suffix. */
  lemma StripPieces(s: string, t: string, r: string)
    requires |t| <= |s| && t == s[|s| - |t|..]
    requires forall i :: 0 <= i < |s| - |t| ==> IsSpace(s[i])
    requires r <= t
    requires forall i :: |r| <= i < |t| ==> IsSpace(t[i])
    ensures s == s[..|s| - |t|] + r + t[|r|..]
    ensures AllSpace(s[..|s| - |t|]) && AllSpace(t[|r|..])
  {
  }

  /** A string with no whitespace at either end is left as it is. */
  lemma StripUnpadded(x: string)
    requires x != [] && !IsSpace(x[0]) && !IsSpace(x[|x| - 1])
    ensures Strip(x) == x
  {
  }

  /** One space on either side of a word is stripped away. */
  lemma StripPadded(x: string)
    requires x != [] && !IsSpace(x[0]) && !IsSpace(x[|x| - 1])
    ensures Strip(" " + x + " ") == x
  {
    var s := " " + x + " ";
    assert s[1..] == x + " ";
    assert TrimStart(s) == x + " ";
    assert (x + " ")[..|x|] == x;
    assert TrimEnd(x + " ") == TrimEnd(x);
  }

  lemma StripIdempotent(s: string)
    ensures Strip(Strip(s)) == Strip(s)
  {
    StripEdges(s);
  }

  function ToLowerChar(c: char): char {
    if 'A' <= c <= 'Z' then (c as int + 32) as char else c
  }

  function ToUpperChar(c: char): char {
    if 'a' <= c <= 'z' then (c as int - 32) as char else c
  }

  /**
   `s.lower()` over the ASCII letters: no capital is left, each capital
   becomes its small letter, and every other character is kept.
   */
  function Lower(s: string): (r: string)
    ensures |r| == |s|
    ensures forall i :: 0 <= i < |r| ==> !('A' <= r[i] <= 'Z')
    ensures forall i :: 0 <= i < |s| && 'A' <= s[i] <= 'Z' ==> r[i] as int == s[i] as int + 32
    ensures forall i :: 0 <= i < |s| && !('A' <= s[i] <= 'Z') ==> r[i] == s[i]
  {
    seq(|s|, i requires 0 <= i < |s| => ToLowerChar(s[i]))
  }

  /**
   `s.upper()` over the ASCII letters: no small letter is left, each small
   letter becomes its capital, and every other character is kept.
   */
  function Upper(s: string): (r: string)
    ensures |r| == |s|
    ensures forall i :: 0 <= i < |r| ==> !('a' <= r[i] <= 'z')
    ensures forall i :: 0 <= i < |s| && 'a' <= s[i] <= 'z' ==> r[i] as int == s[i] as int - 32
    ensures forall i :: 0 <= i < |s| && !('a' <= s[i] <= 'z') ==> r[i] == s[i]
  {
    seq(|s|, i requires 0 <= i < |s| => ToUpperChar(s[i]))
  }

  lemma LowerIdempotent(s: string)
    ensures Lower(Lower(s)) == Lower(s)
  {
  }

  lemma UpperIdempotent(s: string)
    ensures Upper(Upper(s)) == Upper(s)
  {
  }
}
