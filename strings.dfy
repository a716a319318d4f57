/**
 * The parts of Python's str behaviour the harvester relies on: whitespace stripping,
 * substring tests, split/join, decimal rendering of integers, prefix slicing, and the
 * binary string comparison SQLite applies to TEXT columns.
 */
module Strings {

  /** Python's str.isspace() for a single character. */
  predicate IsSpace(c: char) {
    c == ' ' || c == '\t' || c == '\n' || c == '\r' || c == '\U{0b}' || c == '\U{0c}'
    || ('\U{1c}' <= c <= '\U{1f}') || c == '\U{85}' || c == '\U{a0}' || c == '\U{1680}'
    || ('\U{2000}' <= c <= '\U{200a}') || c == '\U{2028}' || c == '\U{2029}' || c == '\U{202f}'
    || c == '\U{205f}' || c == '\U{3000}'
  }

  /** A string made only of whitespace (s.strip() == ''). */
  predicate IsBlank(s: string) {
    forall i :: 0 <= i < |s| ==> IsSpace(s[i])
  }

  /** Python's s.rstrip(): drops the trailing whitespace and nothing else. */
  function RStrip(s: string): (r: string)
    ensures |r| <= |s| && r == s[..|r|]
    ensures IsBlank(s[|r|..])
    ensures r == [] || !IsSpace(r[|r| - 1])
  {
    if |s| > 0 && IsSpace(s[|s| - 1]) then
      var r := RStrip(s[..|s| - 1]);
      RStripStep(s, r);
      r
    else s
  }

  /** One step of RStrip: what strips the shorter string also strips s when s ends in whitespace. */
  lemma RStripStep(s: string, r: string)
    requires |s| > 0 && IsSpace(s[|s| - 1])
    requires |r| <= |s| - 1 && r == s[..|s| - 1][..|r|] && IsBlank(s[..|s| - 1][|r|..])
    ensures r == s[..|r|] && IsBlank(s[|r|..])
  {
    assert s[..|s| - 1][..|r|] == s[..|r|];
    assert s[|r|..] == s[..|s| - 1][|r|..] + [s[|s| - 1]];
    BlankConcat(s[..|s| - 1][|r|..], [s[|s| - 1]]);
  }

  /** Two blank strings put together are blank. */
  lemma BlankConcat(a: string, b: string)
    requires IsBlank(a) && IsBlank(b)
    ensures IsBlank(a + b)
  {
    forall i | 0 <= i < |a + b|
      ensures IsSpace((a + b)[i])
    {
      if i < |a| {
        assert (a + b)[i] == a[i];
      } else {
        assert (a + b)[i] == b[i - |a|];
      }
    }
  }

  /** Python's s.lstrip(): drops the leading whitespace and nothing else. */
  function LStrip(s: string): (r: string)
    ensures |r| <= |s| && r == s[|s| - |r|..]
    ensures IsBlank(s[..|s| - |r|])
    ensures r == [] || !IsSpace(r[0])
  {
    if |s| > 0 && IsSpace(s[0]) then
      var r := LStrip(s[1..]);
      LStripStep(s, r);
      r
    else s
  }

  /** One step of LStrip: what strips the shorter string also strips s when s starts with whitespace. */
  lemma LStripStep(s: string, r: string)
    requires |s| > 0 && IsSpace(s[0])
    requires |r| <= |s| - 1 && r == s[1..][|s| - 1 - |r|..] && IsBlank(s[1..][..|s| - 1 - |r|])
    ensures r == s[|s| - |r|..] && IsBlank(s[..|s| - |r|])
  {
    assert s[1..][|s| - 1 - |r|..] == s[|s| - |r|..];
    assert s[..|s| - |r|] == [s[0]] + s[1..][..|s| - 1 - |r|];
    BlankConcat([s[0]], s[1..][..|s| - 1 - |r|]);
  }

  /** Python's s.strip(). */
  function Strip(s: string): string {
    LStrip(RStrip(s))
  }

  /** Stripping leaves nothing exactly when the string is blank. */
  lemma StripEmptyIffBlank(s: string)
    ensures Strip(s) == "" <==> IsBlank(s)
  {
    if !IsBlank(s) {
      var i :| 0 <= i < |s| && !IsSpace(s[i]);
    }
  }

  /** s begins with p (Python's s.startswith(p)). */
  predicate IsPrefix(p: string, s: string) {
    |p| <= |s| && s[..|p|] == p
  }

  /** Python's sub in s, for strings. */
  predicate Contains(s: string, sub: string)
    decreases |s|
  {
    IsPrefix(sub, s) || (|s| > 0 && Contains(s[1..], sub))
  }

  /** A string contains every one of its own infixes. */
  lemma {:induction false} ContainsInfix(a: string, sub: string, b: string)
    ensures Contains(a + sub + b, sub)
    decreases |a|
  {
    if a == [] {
      assert (a + sub + b)[..|sub|] == sub;
    } else {
      assert (a + sub + b)[1..] == a[1..] + sub + b;
      ContainsInfix(a[1..], sub, b);
    }
  }

  /** Python's s.split(sep) for a one-character separator. */
  function Split(s: string, sep: char): (parts: seq<string>)
    ensures |parts| >= 1
    ensures forall i :: 0 <= i < |parts| ==> sep !in parts[i]
  {
    if |s| == 0 then [""]
    else if s[0] == sep then [""] + Split(s[1..], sep)
    else
      var rest := Split(s[1..], sep);
      [[s[0]] + rest[0]] + rest[1..]
  }

  /** Python's sep.join(parts). */
  function Join(parts: seq<string>, sep: string): string {
    if |parts| == 0 then ""
    else if |parts| == 1 then parts[0]
    else parts[0] + sep + Join(parts[1..], sep)
  }

  /** Joining the pieces of a split gives the string back. */
  lemma {:induction false} JoinSplit(s: string, sep: char)
    ensures Join(Split(s, sep), [sep]) == s
  {
    if |s| == 0 {
    } else if s[0] == sep {
      JoinSplit(s[1..], sep);
      var rest := Split(s[1..], sep);
      assert ([""] + rest)[1..] == rest;
    } else {
      JoinSplit(s[1..], sep);
      var rest := Split(s[1..], sep);
      if |rest| == 1 {
        assert Join(rest, [sep]) == rest[0];
      } else {
        assert Join(rest, [sep]) == rest[0] + [sep] + Join(rest[1..], [sep]);
        assert ([[s[0]] + rest[0]] + rest[1..])[1..] == rest[1..];
      }
    }
  }

  /** Splitting a join of separator-free pieces gives the pieces back. */
  lemma {:induction false} SplitJoin(parts: seq<string>, sep: char)
    requires |parts| >= 1
    requires forall i :: 0 <= i < |parts| ==> sep !in parts[i]
    ensures Split(Join(parts, [sep]), sep) == parts
    decreases |parts|, |parts[0]|
  {
    var p := parts[0];
    if |parts| == 1 {
      SplitFree(p, sep);
    } else if p == [] {
      var tail := parts[1..];
      SplitJoin(tail, sep);
      assert Join(parts, [sep]) == [sep] + Join(tail, [sep]);
      assert ([sep] + Join(tail, [sep]))[1..] == Join(tail, [sep]);
      assert [""] + tail == parts;
    } else {
      var parts' := [p[1..]] + parts[1..];
      assert sep !in p[1..] by { assert forall k :: 0 <= k < |p[1..]| ==> p[1..][k] == p[k + 1]; }
      SplitJoin(parts', sep);
      var j := Join(parts, [sep]);
      assert j == p + [sep] + Join(parts[1..], [sep]);
      assert Join(parts', [sep]) == p[1..] + [sep] + Join(parts[1..], [sep]);
      assert j[0] == p[0] && j[1..] == Join(parts', [sep]);
      assert parts'[1..] == parts[1..];
      assert [p[0]] + p[1..] == p;
      assert [[p[0]] + p[1..]] + parts'[1..] == parts;
    }
  }

  /** A string without the separator splits into itself alone. */
  lemma {:induction false} SplitFree(s: string, sep: char)
    requires sep !in s
    ensures Split(s, sep) == [s]
  {
    if |s| > 0 {
      assert sep !in s[1..] by { assert forall k :: 0 <= k < |s[1..]| ==> s[1..][k] == s[k + 1]; }
      SplitFree(s[1..], sep);
      assert [s[0]] + s[1..] == s;
    }
  }

  /** The decimal digits of 0..9. */
  function DigitChar(d: nat): (c: char)
    requires d < 10
    ensures '0' <= c <= '9' && DigitValue(c) == d
  {
    ('0' as int + d) as char
  }

  /** The value of an ASCII digit. */
  function DigitValue(c: char): int {
    c as int - '0' as int
  }

  predicate IsDigit(c: char) {
    '0' <= c <= '9'
  }

  /** Python's str(n) for a non-negative integer. */
  function NatToString(n: nat): (r: string)
    ensures |r| >= 1
    ensures forall i :: 0 <= i < |r| ==> IsDigit(r[i])
  {
    if n < 10 then [DigitChar(n)] else NatToString(n / 10) + [DigitChar(n % 10)]
  }

  /** Python's str(i) for any integer. */
  function IntToString(i: int): string {
    if i < 0 then "-" + NatToString(-i) else NatToString(i)
  }

  /** Python's int(s) for a string of ASCII digits. */
  function DigitsValue(s: string): nat
    requires forall i :: 0 <= i < |s| ==> IsDigit(s[i])
  {
    if |s| == 0 then 0
    else
      assert IsDigit(s[|s| - 1]);
      DigitsValue(s[..|s| - 1]) * 10 + DigitValue(s[|s| - 1])
  }

  function Pow10(n: nat): nat {
    if n == 0 then 1 else 10 * Pow10(n - 1)
  }

  /** A string of n digits denotes a number below 10^n. */
  lemma {:induction false} DigitsValueBound(s: string)
    requires forall i :: 0 <= i < |s| ==> IsDigit(s[i])
    ensures DigitsValue(s) < Pow10(|s|)
  {
    if |s| > 0 { DigitsValueBound(s[..|s| - 1]); }
  }

  /** Reading back the decimal rendering of a number gives the number. */
  lemma {:induction false} DigitsValueOfNatToString(n: nat)
    ensures DigitsValue(NatToString(n)) == n
  {
    var r := NatToString(n);
    if n >= 10 {
      DigitsValueOfNatToString(n / 10);
      assert r[..|r| - 1] == NatToString(n / 10);
    }
  }

  /** Python's s[:k] for any integer k, negative k counting from the end. */
  function PyTake<T>(s: seq<T>, k: int): (r: seq<T>)
    ensures 0 <= k ==> r == s[..if k < |s| then k else |s|]
    ensures k < 0 ==> r == s[..if -k < |s| then |s| + k else 0]
  {
    if k >= 0 then (if k < |s| then s[..k] else s)
    else if -k < |s| then s[..|s| + k] else []
  }

  /**
   * a sorts at or before b in SQLite's BINARY collation. For text held as UTF-8 this is
   * the order of code points, a proper prefix sorting first.
   */
  predicate LexLe(a: string, b: string) {
    if |a| == 0 then true
    else if |b| == 0 then false
    else if a[0] != b[0] then a[0] < b[0]
    else LexLe(a[1..], b[1..])
  }

  /** The binary collation is a total order. */
  lemma {:induction false} LexLeTotal(a: string, b: string)
    ensures LexLe(a, b) || LexLe(b, a)
  {
    if |a| > 0 && |b| > 0 && a[0] == b[0] { LexLeTotal(a[1..], b[1..]); }
  }

  lemma {:induction false} LexLeAntisymmetric(a: string, b: string)
    requires LexLe(a, b) && LexLe(b, a)
    ensures a == b
  {
    if |a| > 0 && |b| > 0 {
      LexLeAntisymmetric(a[1..], b[1..]);
      assert a == [a[0]] + a[1..] && b == [b[0]] + b[1..];
    }
  }

  lemma {:induction false} LexLeTransitive(a: string, b: string, c: string)
    requires LexLe(a, b) && LexLe(b, c)
    ensures LexLe(a, c)
  {
    if |a| > 0 && |b| > 0 && |c| > 0 && a[0] == b[0] && b[0] == c[0] {
      LexLeTransitive(a[1..], b[1..], c[1..]);
    }
  }

  /** ASCII-only lower-casing, as SQLite's LIKE applies it. */
  function AsciiLower(c: char): char {
    if 'A' <= c <= 'Z' then (c as int + 32) as char else c
  }

  /**
   * SQLite's LIKE without ESCAPE: '%' matches any run of characters, '_' any single
   * character, and other characters match ignoring ASCII case.
   */
  predicate Like(pattern: string, s: string)
    decreases |pattern| + |s|
  {
    if |pattern| == 0 then |s| == 0
    else if pattern[0] == '%' then Like(pattern[1..], s) || (|s| > 0 && Like(pattern, s[1..]))
    else if |s| == 0 then false
    else if pattern[0] == '_' then Like(pattern[1..], s[1..])
    else AsciiLower(pattern[0]) == AsciiLower(s[0]) && Like(pattern[1..], s[1..])
  }

  /** A pattern is matched literally when it holds no wildcard characters. */
  predicate WildcardFree(p: string) {
    '%' !in p && '_' !in p
  }

  /** '%' matches every string. */
  lemma {:induction false} LikeAnyMatches(s: string)
    ensures Like("%", s)
    decreases |s|
  {
    if |s| > 0 { LikeAnyMatches(s[1..]); }
  }

  /** s begins with k, ignoring ASCII case. */
  predicate FoldedPrefix(k: string, s: string) {
    |k| <= |s| && forall j :: 0 <= j < |k| ==> AsciiLower(s[j]) == AsciiLower(k[j])
  }

  /** k occurs in s at position i, ignoring ASCII case. */
  predicate FoldedAt(k: string, s: string, i: int) {
    0 <= i && i + |k| <= |s| && forall j :: 0 <= j < |k| ==> AsciiLower(s[i + j]) == AsciiLower(k[j])
  }

  /** k occurs somewhere in s, ignoring ASCII case. */
  ghost predicate ContainsFolded(k: string, s: string) {
    exists i :: FoldedAt(k, s, i)
  }

  /** A wildcard-free k followed by '%' matches exactly the strings that begin with k up to ASCII case. */
  lemma {:induction false} LikePrefixIff(k: string, s: string)
    requires WildcardFree(k)
    ensures Like(k + "%", s) <==> FoldedPrefix(k, s)
    decreases |k|
  {
    if |k| == 0 {
      assert k + "%" == "%";
      LikeAnyMatches(s);
    } else {
      assert (k + "%")[0] == k[0] && (k + "%")[1..] == k[1..] + "%";
      assert k[0] in k;
      assert WildcardFree(k[1..]) by {
        assert forall i :: 0 <= i < |k[1..]| ==> k[1..][i] == k[i + 1];
      }
      if |s| > 0 {
        LikePrefixIff(k[1..], s[1..]);
        if FoldedPrefix(k[1..], s[1..]) && AsciiLower(k[0]) == AsciiLower(s[0]) {
          forall j | 0 <= j < |k| ensures AsciiLower(s[j]) == AsciiLower(k[j]) {
            if j > 0 { assert s[1..][j - 1] == s[j] && k[1..][j - 1] == k[j]; }
          }
        }
        if FoldedPrefix(k, s) {
          forall j | 0 <= j < |k[1..]| ensures AsciiLower(s[1..][j]) == AsciiLower(k[1..][j]) {
            assert s[1..][j] == s[j + 1] && k[1..][j] == k[j + 1];
          }
        }
      }
    }
  }

  /** A match at the front, or a match in the rest moved one position on. */
  lemma FoldedAtShift(k: string, s: string, i: int)
    requires |s| > 0 && 0 <= i
    ensures FoldedAt(k, s[1..], i) <==> FoldedAt(k, s, i + 1)
  {
    if i + |k| <= |s| - 1 {
      forall j | 0 <= j < |k|
        ensures AsciiLower(s[1..][i + j]) == AsciiLower(k[j]) <==> AsciiLower(s[i + 1 + j]) == AsciiLower(k[j])
      {
        assert s[1..][i + j] == s[1 + (i + j)];
      }
    }
  }

  /**
   * "%k%" for a wildcard-free keyword k matches exactly the strings that contain k,
   * ignoring ASCII case: LIKE's substring search as the keyword search uses it.
   */
  lemma {:induction false} LikeInfixIff(k: string, s: string)
    requires WildcardFree(k)
    ensures Like("%" + k + "%", s) <==> ContainsFolded(k, s)
    decreases |s|
  {
    var p := "%" + k + "%";
    assert p[0] == '%' && p[1..] == k + "%";
    LikePrefixIff(k, s);
    assert FoldedPrefix(k, s) <==> FoldedAt(k, s, 0) by {
      forall j | 0 <= j < |k| && j < |s| ensures s[0 + j] == s[j] { }
    }
    if |s| > 0 {
      LikeInfixIff(k, s[1..]);
      if ContainsFolded(k, s[1..]) {
        var i :| FoldedAt(k, s[1..], i);
        FoldedAtShift(k, s, i);
      }
      if ContainsFolded(k, s) && !FoldedAt(k, s, 0) {
        var i :| FoldedAt(k, s, i);
        FoldedAtShift(k, s, i - 1);
      }
    } else if ContainsFolded(k, s) {
      var i :| FoldedAt(k, s, i);
      assert i == 0;
    }
  }
}
