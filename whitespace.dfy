/**
 * The whitespace fixer: a file's lines (as readlines returns them) lose their trailing
 * whitespace, blank lines become a bare newline, and a run of blank lines at the end of
 * the file shrinks to one.
 */
module Whitespace {
  import opened Strings

  // ---------------------------------------------------------------------------------
  // One line
  // ---------------------------------------------------------------------------------

  /** line.rstrip() + '\n'. */
  function CleanLine(line: string): (r: string)
    ensures |r| >= 1 && r[|r| - 1] == '\n'
  {
    RStrip(line) + "\n"
  }

  /** Right-stripping leaves nothing exactly when the line is blank. */
  lemma RStripEmptyIffBlank(line: string)
    ensures RStrip(line) == [] <==> IsBlank(line)
  {
    var kept := RStrip(line);
    if kept != [] {
      assert line[|kept| - 1] == kept[|kept| - 1];
    } else {
      assert line[|kept|..] == line;
    }
  }

  /** A cleaned line has no whitespace just before its newline. */
  lemma CleanLineEnd(line: string)
    ensures var r := CleanLine(line); |r| == 1 || !IsSpace(r[|r| - 2])
  {
    var kept := RStrip(line);
    assert kept != [] ==> (kept + "\n")[|kept| - 1] == kept[|kept| - 1];
  }

  /** A cleaned line is blank exactly when its input line is, and then it is a bare newline. */
  lemma CleanLineBlank(line: string)
    ensures IsBlank(CleanLine(line)) <==> IsBlank(line)
    ensures Strip(CleanLine(line)) == "" <==> IsBlank(line)
    ensures IsBlank(line) ==> CleanLine(line) == "\n"
  {
    var kept := RStrip(line);
    RStripEmptyIffBlank(line);
    StripEmptyIffBlank(CleanLine(line));
    assert kept != [] ==> (kept + "\n")[|kept| - 1] == kept[|kept| - 1];
  }

  /** Right-stripping ignores a whitespace character added at the end. */
  lemma RStripSpaceAppended(s: string, c: char)
    requires IsSpace(c)
    ensures RStrip(s + [c]) == RStrip(s)
  {
    assert (s + [c])[..|s|] == s;
  }

  /** A string that does not end in whitespace is its own right-strip. */
  lemma RStripNoTrailingSpace(s: string)
    requires s == [] || !IsSpace(s[|s| - 1])
    ensures RStrip(s) == s
  {
  }

  /** Cleaning a cleaned line changes nothing. */
  lemma CleanLineIdempotent(line: string)
    ensures CleanLine(CleanLine(line)) == CleanLine(line)
  {
    var kept := RStrip(line);
    RStripSpaceAppended(kept, '\n');
    RStripNoTrailingSpace(kept);
  }

  // ---------------------------------------------------------------------------------
  // The file
  // ---------------------------------------------------------------------------------

  /** The list comprehension: every line right-stripped and ended with '\n'. */
  function Cleaned(lines: seq<string>): (r: seq<string>)
    ensures |r| == |lines|
  {
    if lines == [] then [] else Cleaned(lines[..|lines| - 1]) + [CleanLine(lines[|lines| - 1])]
  }

  /** Line i of the comprehension is input line i cleaned. */
  lemma {:induction false} CleanedAt(lines: seq<string>, i: nat)
    requires i < |lines|
    ensures Cleaned(lines)[i] == CleanLine(lines[i])
    decreases |lines|
  {
    if i < |lines| - 1 {
      CleanedAt(lines[..|lines| - 1], i);
      assert lines[..|lines| - 1][i] == lines[i];
    }
  }

  /** The position of the last line that is not blank, or -1 when there is none. */
  function LastContent(lines: seq<string>): (r: int)
    ensures -1 <= r < |lines|
    ensures r >= 0 ==> !IsBlank(lines[r])
    ensures forall j {:trigger IsBlank(lines[j])} :: r < j < |lines| ==> IsBlank(lines[j])
  {
    if |lines| == 0 then -1
    else if !IsBlank(lines[|lines| - 1]) then |lines| - 1
    else LastContent(lines[..|lines| - 1])
  }

  /** How many lines survive: all of them up to the last non-blank one, and one blank line after it. */
  function Kept(lines: seq<string>): (n: nat)
    ensures n <= |lines|
  {
    if LastContent(lines) + 2 < |lines| then LastContent(lines) + 2 else |lines|
  }

  /** What fix_whitespace_issues writes back for the lines it read. */
  function Fixed(lines: seq<string>): seq<string> {
    Cleaned(lines)[..Kept(lines)]
  }

  /** Line i of the output, when there is one, is input line i cleaned. */
  lemma FixedAt(input: seq<string>, i: nat)
    requires i < |Fixed(input)|
    ensures Fixed(input)[i] == CleanLine(input[i])
  {
    CleanedAt(input, i);
  }

  /** When the last n - 1 lines are blank and the one before is not, n lines are kept. */
  lemma KeptAt(lines: seq<string>, n: nat)
    requires 1 <= n <= |lines| && LastContent(lines) < n - 1
    requires n == 1 || !IsBlank(lines[n - 2])
    ensures Kept(lines) == n
  {
  }

  /** A file that does not end in a blank line keeps all its lines. */
  lemma KeptAll(lines: seq<string>)
    requires lines == [] || !IsBlank(lines[|lines| - 1])
    ensures Kept(lines) == |lines|
  {
  }

  // ---------------------------------------------------------------------------------
  // The procedure
  // ---------------------------------------------------------------------------------

  /** Cleaning keeps every line's blankness, so the last line with content stays where it was. */
  lemma {:induction false} LastContentCleaned(input: seq<string>)
    ensures LastContent(Cleaned(input)) == LastContent(input)
    decreases |input|
  {
    if input != [] {
      var k := |input| - 1;
      var c := Cleaned(input);
      CleanedAt(input, k);
      CleanLineBlank(input[k]);
      if IsBlank(input[k]) {
        assert c[..k] == Cleaned(input[..k]);
        LastContentCleaned(input[..k]);
      }
    }
  }

  /**
   * fix_whitespace_issues on the file's lines: strip each line and end it with '\n', set
   * blank lines to '\n', then pop lines while the last two are both blank.
   */
  method FixWhitespaceIssues(input: seq<string>) returns (lines: seq<string>)
    ensures lines == Fixed(input)
  {
    lines := Cleaned(input);
    ghost var cleaned := lines;
    for i := 0 to |lines|
      invariant lines == cleaned
    {
      if Strip(lines[i]) == "" {
        CleanedLineNewline(input, i);
        UpdateSame(lines, i, "\n");
        lines := lines[i := "\n"];
      }
    }
    LastContentCleaned(input);
    lines := DropTrailingBlankLines(lines);
  }

  /** The closing while loop of fix_whitespace_issues: while the last two lines are both blank, pop one. */
  method DropTrailingBlankLines(cleaned: seq<string>) returns (lines: seq<string>)
    ensures lines == cleaned[..Kept(cleaned)]
  {
    lines := cleaned;
    WholeSlice(cleaned);
    if |lines| > 0 && Strip(lines[|lines| - 1]) == "" {
      StripEmptyIffBlank(lines[|lines| - 1]);
      while |lines| > 1 && Strip(lines[|lines| - 2]) == ""
        invariant 1 <= |lines| <= |cleaned|
        invariant lines == cleaned[..|lines|]
        invariant LastContent(cleaned) < |lines| - 1
        decreases |lines|
      {
        StripEmptyIffBlank(lines[|lines| - 2]);
        PopBlank(cleaned, |lines|);
        lines := lines[..|lines| - 1];
      }
      if |lines| > 1 {
        StripEmptyIffBlank(lines[|lines| - 2]);
      }
      KeptAt(cleaned, |lines|);
    } else {
      if |lines| > 0 {
        StripEmptyIffBlank(lines[|lines| - 1]);
      }
      KeptAll(cleaned);
    }
  }

  /** A blank cleaned line is a bare '\n'. */
  lemma CleanedLineNewline(input: seq<string>, i: nat)
    requires i < |input| && Strip(Cleaned(input)[i]) == ""
    ensures Cleaned(input)[i] == "\n"
  {
    CleanedAt(input, i);
    CleanLineBlank(input[i]);
  }

  lemma WholeSlice<T>(s: seq<T>)
    ensures s[..|s|] == s
  {
  }

  lemma UpdateSame<T>(s: seq<T>, i: nat, v: T)
    requires i < |s| && s[i] == v
    ensures s[i := v] == s
  {
  }

  /** Popping a blank line leaves a prefix with nothing but blank lines after its last content. */
  lemma PopBlank(lines: seq<string>, n: nat)
    requires 2 <= n <= |lines| && LastContent(lines) < n - 1 && IsBlank(lines[n - 2])
    ensures LastContent(lines) < n - 2
    ensures lines[..n][..n - 1] == lines[..n - 1]
  {
    PrefixOfPrefix(lines, n, n - 1);
  }

  lemma PrefixOfPrefix<T>(s: seq<T>, m: nat, n: nat)
    requires n <= m <= |s|
    ensures s[..m][..n] == s[..n]
  {
  }

  // ---------------------------------------------------------------------------------
  // Properties of the output
  // ---------------------------------------------------------------------------------

  /** Every line written ends in a single '\n' with no whitespace just before it. */
  lemma FixedLinesEndCleanly(input: seq<string>)
    ensures forall i :: 0 <= i < |Fixed(input)| ==>
      var l := Fixed(input)[i]; |l| >= 1 && l[|l| - 1] == '\n' && (|l| == 1 || !IsSpace(l[|l| - 2]))
  {
    forall i | 0 <= i < |Fixed(input)|
      ensures var l := Fixed(input)[i]; |l| >= 1 && l[|l| - 1] == '\n' && (|l| == 1 || !IsSpace(l[|l| - 2]))
    {
      FixedAt(input, i);
      CleanLineEnd(input[i]);
    }
  }

  /**
   * Lines keep their places: each surviving line is its input line without trailing
   * whitespace, blank lines are a bare newline, every non-blank line survives, and only
   * blank lines at the end are dropped.
   */
  lemma FixedKeepsLines(input: seq<string>)
    ensures |Fixed(input)| <= |input|
    ensures forall i :: 0 <= i < |Fixed(input)| ==> Fixed(input)[i] == RStrip(input[i]) + "\n"
    ensures forall i :: 0 <= i < |Fixed(input)| && IsBlank(input[i]) ==> Fixed(input)[i] == "\n"
    ensures forall i :: 0 <= i < |input| && !IsBlank(input[i]) ==> i < |Fixed(input)|
    ensures forall i :: |Fixed(input)| <= i < |input| ==> IsBlank(input[i])
  {
    forall i | 0 <= i < |Fixed(input)|
      ensures Fixed(input)[i] == RStrip(input[i]) + "\n"
      ensures IsBlank(input[i]) ==> Fixed(input)[i] == "\n"
    {
      FixedAt(input, i);
      CleanLineBlank(input[i]);
    }
  }

  /** Nothing stays nothing, and a file ending in a blank line still ends in one. */
  lemma FixedTail(input: seq<string>)
    ensures Fixed(input) == [] <==> input == []
    ensures input != [] && IsBlank(input[|input| - 1]) ==> IsBlank(Fixed(input)[|Fixed(input)| - 1])
  {
    if input != [] && IsBlank(input[|input| - 1]) {
      LastKeptBlank(input);
      BlankLineFixed(input, Kept(input) - 1);
      assert IsSpace("\n"[0]);
    }
  }

  /** When the file ends in a blank line, so do the kept lines. */
  lemma LastKeptBlank(input: seq<string>)
    requires input != [] && IsBlank(input[|input| - 1])
    ensures Kept(input) >= 1 && IsBlank(input[Kept(input) - 1])
  {
    assert LastContent(input) < Kept(input) - 1;
  }

  /** A kept blank line is written as a bare '\n'. */
  lemma BlankLineFixed(input: seq<string>, k: nat)
    requires k < |input| && IsBlank(input[k]) && k < Kept(input)
    ensures Fixed(input)[k] == "\n"
  {
    FixedAt(input, k);
    CleanLineBlank(input[k]);
  }

  /** The file never ends in two blank lines. */
  lemma FixedEndsOnce(input: seq<string>)
    ensures |Fixed(input)| >= 2 ==> !IsBlank(Fixed(input)[|Fixed(input)| - 2]) || !IsBlank(Fixed(input)[|Fixed(input)| - 1])
  {
    var out := Fixed(input);
    var last := LastContent(input);
    if |out| >= 2 {
      assert last == |out| - 2 || last == |out| - 1;
      FixedAt(input, last);
      CleanLineBlank(input[last]);
    }
  }

  /** A file of blank lines becomes a single '\n'. */
  lemma AllBlankFile(input: seq<string>)
    requires input != [] && forall i :: 0 <= i < |input| ==> IsBlank(input[i])
    ensures Fixed(input) == ["\n"]
  {
    assert LastContent(input) == -1;
    assert |Fixed(input)| == 1;
    FixedAt(input, 0);
    CleanLineBlank(input[0]);
    Singleton(Fixed(input), "\n");
  }

  lemma Singleton<T>(s: seq<T>, v: T)
    requires |s| == 1 && s[0] == v
    ensures s == [v]
  {
  }

  /** Lines that cleaning leaves alone make a list that cleaning leaves alone. */
  lemma CleanedFixpoint(lines: seq<string>)
    requires forall i :: 0 <= i < |lines| ==> CleanLine(lines[i]) == lines[i]
    ensures Cleaned(lines) == lines
  {
    forall i | 0 <= i < |lines|
      ensures Cleaned(lines)[i] == lines[i]
    {
      CleanedAt(lines, i);
    }
  }

  /** The output is already short enough: a second run keeps every line of it. */
  lemma FixedKeptAll(input: seq<string>)
    ensures Kept(Fixed(input)) == |Fixed(input)|
  {
    if input != [] && !IsBlank(input[|input| - 1]) {
      KeptAll(input);
      ContentLineFixed(input, |input| - 1);
    } else {
      FixedTail(input);
      FixedEndsOnce(input);
    }
    KeptEndsOnce(Fixed(input));
  }

  /** A kept line with content still has content once written. */
  lemma ContentLineFixed(input: seq<string>, k: nat)
    requires k < |input| && !IsBlank(input[k]) && k < Kept(input)
    ensures !IsBlank(Fixed(input)[k])
  {
    FixedAt(input, k);
    CleanLineBlank(input[k]);
  }

  /** Lines that do not end in two blank lines are all kept. */
  lemma KeptEndsOnce(lines: seq<string>)
    requires |lines| < 2 || !IsBlank(lines[|lines| - 2]) || !IsBlank(lines[|lines| - 1])
    ensures Kept(lines) == |lines|
  {
  }

  /** Running the fixer on its own output writes the same lines again. */
  lemma {:induction false} FixIdempotent(input: seq<string>)
    ensures Fixed(Fixed(input)) == Fixed(input)
  {
    var out := Fixed(input);
    forall i | 0 <= i < |out|
      ensures CleanLine(out[i]) == out[i]
    {
      FixedAt(input, i);
      CleanLineIdempotent(input[i]);
    }
    CleanedFixpoint(out);
    FixedKeptAll(input);
    WholeSlice(out);
  }

  /** A file ending in one blank line keeps it: "a\n\n" is written back unchanged. */
  lemma OneBlankLineStays()
    ensures Fixed(["a\n", "\n"]) == ["a\n", "\n"]
  {
    var input := ["a\n", "\n"];
    RStripSpaceAppended("a", '\n');
    RStripNoTrailingSpace("a");
    assert "a" + ['\n'] == "a\n";
    assert !IsBlank(input[0]) by {
      assert !IsSpace(input[0][0]);
    }
    CleanLineBlank(input[1]);
    KeptAt(input, 2);
    FixedAt(input, 0);
    FixedAt(input, 1);
    Pair(Fixed(input), "a\n", "\n");
  }

  lemma Pair<T>(s: seq<T>, a: T, b: T)
    requires |s| == 2 && s[0] == a && s[1] == b
    ensures s == [a, b]
  {
  }
}
