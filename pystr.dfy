/**
 * The few Python `str` and list operations the research agent relies on,
 * over `string` (a sequence of code points, as a Python `str` is).
 */
module PyStr {

  /** Python's `str.isspace()` on one code point: the characters `str.strip()` removes. */
  predicate IsSpace(c: char)
  {
    || ('\t' <= c <= '\r')
    || ('\U{1c}' <= c <= ' ')
    || c == '\U{85}' || c == '\U{a0}' || c == '\U{1680}'
    || ('\U{2000}' <= c <= '\U{200a}')
    || c == '\U{2028}' || c == '\U{2029}' || c == '\U{202f}' || c == '\U{205f}' || c == '\U{3000}'
  }

  /** The code points Python 3's `str.isspace()` accepts, listed one by one. */
  const PythonWhitespace: set<char> := {
    '\t', '\n', '\U{0b}', '\U{0c}', '\r', '\U{1c}', '\U{1d}', '\U{1e}', '\U{1f}', ' ',
    '\U{85}', '\U{a0}', '\U{1680}',
    '\U{2000}', '\U{2001}', '\U{2002}', '\U{2003}', '\U{2004}', '\U{2005}',
    '\U{2006}', '\U{2007}', '\U{2008}', '\U{2009}', '\U{200a}',
    '\U{2028}', '\U{2029}', '\U{202f}', '\U{205f}', '\U{3000}'
  }

  /** The range-based `IsSpace` accepts exactly the listed code points. */
  lemma IsSpaceTable(c: char)
    ensures IsSpace(c) <==> c in PythonWhitespace
  {
  }

  /** Python's `s.lstrip(chars)`, with the character set given as a predicate `p`. */
  function LStrip(s: string, p: char -> bool): (r: string)
    ensures |r| <= |s| && r == s[|s| - |r|..]
    ensures r == [] || !p(r[0])
    ensures forall i :: 0 <= i < |s| - |r| ==> p(s[i])
    decreases |s|
  {
    if |s| > 0 && p(s[0]) then LStrip(s[1..], p) else s
  }

  /** Python's `s.rstrip(chars)`, with the character set given as a predicate `p`. */
  function RStrip(s: string, p: char -> bool): (r: string)
    ensures r <= s
    ensures r == [] || !p(r[|r| - 1])
    ensures forall i :: |r| <= i < |s| ==> p(s[i])
    decreases |s|
  {
    if |s| > 0 && p(s[|s| - 1]) then RStrip(s[..|s| - 1], p) else s
  }

  /** `rstrip` stops at the last character outside the set, when there is one. */
  lemma RStripAt(s: string, p: char -> bool, k: nat)
    requires 0 < k <= |s| && !p(s[k - 1])
    requires forall i :: k <= i < |s| ==> p(s[i])
    ensures RStrip(s, p) == s[..k]
  {
  }

  /** `r` is the infix `s[i..j]`, and every character of `s` outside it is whitespace. */
  predicate TrimmedInfix(s: string, i: int, j: int, r: string)
  {
    && 0 <= i <= j <= |s| && r == s[i..j]
    && (forall k :: 0 <= k < i ==> IsSpace(s[k]))
    && (forall k :: j <= k < |s| ==> IsSpace(s[k]))
  }

  /**
   * Python's `s.strip()`: the longest infix of `s` that neither starts nor
   * ends with whitespace.
   */
  function Strip(s: string): (r: string)
    ensures r == [] || (!IsSpace(r[0]) && !IsSpace(r[|r| - 1]))
    ensures |r| <= |s|
  {
    var left := LStrip(s, IsSpace);
    var r := RStrip(left, IsSpace);
    if r == [] then r
    else
      assert !IsSpace(r[0]) by {
        assert r[0] == left[0];
      }
      r
  }

  /** The strip of `s` is an infix of `s` with only whitespace cut away on either side. */
  lemma StripInfix(s: string)
    ensures exists i, j :: TrimmedInfix(s, i, j, Strip(s))
  {
    var left, r := LStrip(s, IsSpace), Strip(s);
    var i := |s| - |left|;
    assert r == s[i..i + |r|] by {
      assert left == s[i..];
      assert r == left[..|r|];
    }
    forall k | i + |r| <= k < |s|
      ensures IsSpace(s[k])
    {
      assert s[k] == left[k - i];
    }
    assert TrimmedInfix(s, i, i + |r|, r);
  }

  /** The strip of `s` is empty exactly when `s` is all whitespace. */
  lemma StripEmpty(s: string)
    ensures Strip(s) == [] <==> forall i :: 0 <= i < |s| ==> IsSpace(s[i])
  {
  }

  /** A string that neither starts nor ends with whitespace is its own strip. */
  lemma StripTrimmed(t: string)
    requires t == [] || (!IsSpace(t[0]) && !IsSpace(t[|t| - 1]))
    ensures Strip(t) == t
  {
  }

  /** Stripping an already stripped string changes nothing. */
  lemma StripIdempotent(s: string)
    ensures Strip(Strip(s)) == Strip(s)
  {
    StripTrimmed(Strip(s));
  }

  /** Python's `sep.join(parts)`. */
  function Join(parts: seq<string>, sep: string): (r: string)
    ensures parts == [] ==> r == ""
    ensures |parts| > 0 ==> parts[0] <= r
    ensures |parts| > 1 ==> parts[0] + sep <= r
  {
    if |parts| == 0 then ""
    else if |parts| == 1 then parts[0]
    else parts[0] + sep + Join(parts[1..], sep)
  }

  /** Joining a non-empty list after a first part puts one separator between them. */
  lemma JoinCons(head: string, tail: seq<string>, sep: string)
    requires |tail| > 0
    ensures Join([head] + tail, sep) == head + sep + Join(tail, sep)
  {
  }

  /** Python's `s.split(sep)` for a one-character separator. */
  function Split(s: string, sep: char): (r: seq<string>)
    ensures |r| >= 1
    ensures forall k :: 0 <= k < |r| ==> sep !in r[k]
  {
    if |s| == 0 then [""]
    else
      var rest := Split(s[1..], sep);
      if s[0] == sep then [""] + rest else [[s[0]] + rest[0]] + rest[1..]
  }

  /** A string without the separator splits into itself. */
  lemma {:induction false} SplitNoSeparator(a: string, sep: char)
    requires sep !in a
    ensures Split(a, sep) == [a]
  {
    if |a| > 0 {
      SplitNoSeparator(a[1..], sep);
      assert [a[0]] + a[1..] == a;
    }
  }

  /** Splitting stops at the first separator. */
  lemma {:induction false} SplitAtFirst(a: string, sep: char, b: string)
    requires sep !in a
    ensures Split(a + [sep] + b, sep) == [a] + Split(b, sep)
  {
    var s := a + [sep] + b;
    if |a| == 0 {
      assert s[1..] == b;
    } else {
      assert s[1..] == a[1..] + [sep] + b;
      SplitAtFirst(a[1..], sep, b);
      assert [a[0]] + a[1..] == a;
    }
  }

  /** Splitting on the separator undoes joining with it, when no part contains it. */
  lemma {:induction false} SplitJoin(parts: seq<string>, sep: char)
    requires |parts| > 0
    requires forall k :: 0 <= k < |parts| ==> sep !in parts[k]
    ensures Split(Join(parts, [sep]), sep) == parts
  {
    if |parts| == 1 {
      SplitNoSeparator(parts[0], sep);
    } else {
      SplitJoin(parts[1..], sep);
      SplitAtFirst(parts[0], sep, Join(parts[1..], [sep]));
      assert [parts[0]] + parts[1..] == parts;
    }
  }

  /** Joining the pieces of a split with the separator gives back the string. */
  lemma {:induction false} JoinSplit(s: string, sep: char)
    ensures Join(Split(s, sep), [sep]) == s
    decreases |s|
  {
    if |s| > 0 {
      var rest := Split(s[1..], sep);
      JoinSplit(s[1..], sep);
      if s[0] == sep {
        JoinCons("", rest, [sep]);
      } else if |rest| > 1 {
        JoinCons([s[0]] + rest[0], rest[1..], [sep]);
        JoinCons(rest[0], rest[1..], [sep]);
        assert [rest[0]] + rest[1..] == rest;
      }
      assert [s[0]] + s[1..] == s;
    }
  }

  /** The length of the Python slice `xs[:stop]` of a list of length `n`; a negative `stop` counts from the end. */
  function SliceStop(n: nat, stop: int): (k: nat)
    ensures k <= n
  {
    if stop >= 0 then (if stop < n then stop else n)
    else if n + stop > 0 then n + stop
    else 0
  }
}
