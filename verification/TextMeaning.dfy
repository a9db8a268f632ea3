/** What stripping, unifying line breaks and the kept form of a text come to. */
module TextMeaning {
  import opened Texts

  /** White space by code point: the five controls from tab on, the four separators before the space, the
      space, next line, the no-break space, the Ogham mark, the eleven spaces of general punctuation, the
      line and paragraph separators, the narrow, the mathematical and the ideographic space. */
  lemma BlankCodes(c: char)
    ensures IsBlank(c) <==>
      var n := c as int;
      || 9 <= n <= 13 || 28 <= n <= 32 || n == 133 || n == 160 || n == 5760 || 8192 <= n <= 8202
      || n == 8232 || n == 8233 || n == 8239 || n == 8287 || n == 12288
  {
  }

  ghost predicate AllBlank(text: string) { forall i :: 0 <= i < |text| ==> IsBlank(text[i]) }

  /** Nothing, or a text that neither begins nor ends with a blank. */
  ghost predicate NoOuterBlanks(text: string) { text != "" ==> !IsBlank(text[0]) && !IsBlank(text[|text| - 1]) }

  lemma StripSteps(s: string)
    ensures AllBlank("")
    ensures s == "" ==> Strip(s) == "" && NoOuterBlanks("")
    ensures s != "" && IsBlank(s[0]) ==> Strip(s) == Strip(s[1..])
    ensures s != "" && !IsBlank(s[0]) && IsBlank(s[|s| - 1]) ==> Strip(s) == Strip(s[..|s| - 1])
    ensures s != "" && !IsBlank(s[0]) && !IsBlank(s[|s| - 1]) ==> Strip(s) == s && NoOuterBlanks(s)
  {
    hide IsBlank;
  }

  lemma {:induction false} StripParts(s: string) returns (left: string, right: string)
    ensures NoOuterBlanks(Strip(s)) && AllBlank(left) && AllBlank(right) && s == left + Strip(s) + right
  {
    StripSteps(s);
    hide IsBlank, Strip, AllBlank, NoOuterBlanks;
    left, right := "", "";
    if s == "" {
    } else if IsBlank(s[0]) {
      left, right := StripParts(s[1..]);
      OneMoreBlank(s[0], left, right, Strip(s));
      assert s == [s[0]] + s[1..];
      left := [s[0]] + left;
    } else if IsBlank(s[|s| - 1]) {
      var n := |s| - 1;
      left, right := StripParts(s[..n]);
      BlankAtEnd(s[n], left, right, Strip(s));
      assert s == s[..n] + [s[n]];
      right := right + [s[n]];
    } else {
      assert s == "" + s + "";
    }
  }

  lemma OneMoreBlank(c: char, left: string, right: string, middle: string)
    requires IsBlank(c) && AllBlank(left)
    ensures AllBlank([c] + left) && [c] + (left + middle + right) == ([c] + left) + middle + right
  {
    hide IsBlank;
  }

  lemma BlankAtEnd(c: char, left: string, right: string, middle: string)
    requires IsBlank(c) && AllBlank(right)
    ensures AllBlank(right + [c]) && (left + middle + right) + [c] == left + middle + (right + [c])
  {
    hide IsBlank;
  }

  /** Stripping takes blanks off both ends, all of them and nothing else. */
  lemma StripMeans(s: string)
    ensures NoOuterBlanks(Strip(s))
    ensures exists left, right :: AllBlank(left) && AllBlank(right) && s == left + Strip(s) + right
  {
    hide AllBlank, NoOuterBlanks, Strip;
    var left, right := StripParts(s);
  }

  // ----- line breaks ---------------------------------------------------------------------------

  function FirstPiece(s: string): (n: nat)
    requires s != ""
    ensures n <= |s|
  {
    if s[0] == '\r' && |s| > 1 && s[1] == '\n' then 2 else 1
  }

  function UnifiedPiece(c: char): string { if c == '\r' then "\n" else [c] }

  lemma UnifyStep(s: string)
    requires s != ""
    ensures UnifiedBreaks(s) == UnifiedPiece(s[0]) + UnifiedBreaks(s[FirstPiece(s)..])
  {
  }

  lemma {:induction false} UnifyAppends(a: string, b: string)
    requires !(a != "" && a[|a| - 1] == '\r' && b != "" && b[0] == '\n')
    ensures UnifiedBreaks(a + b) == UnifiedBreaks(a) + UnifiedBreaks(b)
    decreases |a|
  {
    hide UnifiedBreaks;
    if a == "" {
      NoBreaksToUnify(a);
      assert a + b == b && "" + UnifiedBreaks(b) == UnifiedBreaks(b);
    } else {
      var n := FirstPiece(a);
      assert (a + b)[n..] == a[n..] + b && (a + b)[0] == a[0] && FirstPiece(a + b) == n;
      UnifyStep(a);
      UnifyStep(a + b);
      UnifyAppends(a[n..], b);
      assert UnifiedPiece(a[0]) + (UnifiedBreaks(a[n..]) + UnifiedBreaks(b)) == (UnifiedPiece(a[0]) + UnifiedBreaks(a[n..])) + UnifiedBreaks(b);
    }
  }

  predicate IsBreak(mark: string) { mark == "\n" || mark == "\r" || mark == "\r\n" }

  predicate IsLine(line: string) { '\n' !in line && '\r' !in line }

  lemma BreakUnified(mark: string)
    requires IsBreak(mark)
    ensures UnifiedBreaks(mark) == "\n"
  {
    assert mark == "\r\n" ==> mark[2..] == "";
    assert mark != "\r\n" ==> mark[1..] == "";
  }

  /** Lines are kept as they are, and each of the three line breaks between them becomes a line feed. */
  lemma {:induction false} BreaksAreUnified(lines: seq<string>, mark: string)
    requires IsBreak(mark) && forall i :: 0 <= i < |lines| ==> IsLine(lines[i])
    ensures UnifiedBreaks(JoinedBy(mark, lines)) == JoinedBy("\n", lines)
  {
    hide UnifiedBreaks;
    if lines == [] {
      NoBreaksToUnify("");
    } else if |lines| == 1 {
      NoBreaksToUnify(lines[0]);
    } else {
      var n := |lines| - 1;
      var before := JoinedBy(mark, lines[..n]);
      BreaksAreUnified(lines[..n], mark);
      if mark == "\n" && before != "" { NoReturns(lines[..n], before[|before| - 1]); }
      UnifyAppends(before, mark);
      UnifyAppends(before + mark, lines[n]);
      BreakUnified(mark);
      NoBreaksToUnify(lines[n]);
    }
  }

  lemma NoReturns(lines: seq<string>, c: char)
    requires (forall i :: 0 <= i < |lines| ==> IsLine(lines[i])) && c in JoinedBy("\n", lines)
    ensures c != '\r'
  {
    JoinedCharacters("\n", lines, c);
  }

  // ----- the kept form ---------------------------------------------------------------------------

  lemma StripNothing(s: string)
    requires NoOuterBlanks(s)
    ensures Strip(s) == s
  {
  }

  lemma {:induction false} JoinedEnds(lines: seq<string>)
    requires lines != [] && lines[0] != "" && lines[|lines| - 1] != ""
    ensures var s := JoinedBy("\n", lines);
      s != "" && s[0] == lines[0][0] && s[|s| - 1] == lines[|lines| - 1][|lines[|lines| - 1]| - 1]
    decreases |lines|
  {
    if |lines| > 1 { JoinedStart(lines); }
  }

  lemma {:induction false} JoinedStart(lines: seq<string>)
    requires lines != [] && lines[0] != ""
    ensures JoinedBy("\n", lines) != "" && JoinedBy("\n", lines)[0] == lines[0][0]
  {
    if |lines| > 1 { JoinedStart(lines[..|lines| - 1]); }
  }

  /** The kept form of lines, however they are broken, has the same lines, each with its words and one
      blank between them. */
  lemma TextFormMeans(lines: seq<string>, mark: string)
    requires IsBreak(mark) && lines != [] && forall i :: 0 <= i < |lines| ==> IsLine(lines[i])
    requires lines[0] != "" && !IsBlank(lines[0][0])
    requires var last := lines[|lines| - 1]; last != "" && !IsBlank(last[|last| - 1])
    ensures Lines(TextForm(JoinedBy(mark, lines))) == CollapsedLines(lines)
    ensures forall i :: 0 <= i < |lines| ==> Words(CollapsedLines(lines)[i]) == Words(lines[i])
  {
    BreaksAreUnified(lines, mark);
    JoinedEnds(lines);
    hide IsBlank, UnifiedBreaks, JoinedBy, Lines, Words, Strip;
    StripNothing(JoinedBy("\n", lines));
    LinesOfJoined(lines);
    forall i | 0 <= i < |lines|
      ensures '\n' !in CollapsedLines(lines)[i] && Words(CollapsedLines(lines)[i]) == Words(lines[i])
    {
      CollapsedIsLine(lines[i]);
      WordsAreClean(lines[i]);
      WordsOfJoined(Words(lines[i]));
    }
    LinesOfJoined(CollapsedLines(lines));
  }

  lemma CollapsedIsLine(line: string)
    requires IsLine(line)
    ensures '\n' !in Collapsed(line)
  {
    if '\n' in Collapsed(line) { CollapsedCharacters(line, '\n'); }
  }

  // ----- the form of recognized text -----------------------------------------------------------------

  ghost predicate AllEmpty(lines: seq<string>) { forall i :: 0 <= i < |lines| ==> lines[i] == "" }

  /** Trimming takes off the empty lines at both ends, and nothing else. */
  lemma {:induction false} TrimmedMeans(before: seq<string>, core: seq<string>, after: seq<string>)
    requires AllEmpty(before) && AllEmpty(after) && core != [] && core[0] != "" && core[|core| - 1] != ""
    ensures Trimmed(before + core + after) == core
    decreases |before| + |after|
  {
    var lines := before + core + after;
    if before != [] {
      TrimmedMeans(before[1..], core, after);
      assert lines[0] == before[0] && lines[1..] == before[1..] + core + after;
    } else if after != [] {
      var n := |after| - 1;
      TrimmedMeans(before, core, after[..n]);
      assert lines[0] == core[0] && lines[|lines| - 1] == after[n] && lines[..|lines| - 1] == before + core + after[..n];
    } else {
      assert lines == core;
    }
  }

  lemma CollapsedShows(line: string)
    ensures Collapsed(line) == "" <==> !Visible(line)
  {
    hide Words, JoinedBy;
    WordsKeepVisible(line);
    WordsAreClean(line);
    WordsOfJoined(Words(line));
    NoWords();
    if Words(line) == [] { EmptyJoin(); }
  }

  lemma NoWords()
    ensures Words("") == []
  {
  }

  lemma EmptyJoin()
    ensures JoinedBy(" ", []) == ""
  {
  }

  /** The form of recognized text has the lines of the text without null characters, from the first that
      shows something to the last, each with the same words and one blank between them. */
  lemma PlainFormMeans(text: string, before: seq<string>, lines: seq<string>, after: seq<string>, mark: string)
    requires IsBreak(mark) && WithoutNul(text) == JoinedBy(mark, before + lines + after)
    requires forall i :: 0 <= i < |before + lines + after| ==> IsLine((before + lines + after)[i])
    requires forall i :: 0 <= i < |before| ==> !Visible(before[i])
    requires forall i :: 0 <= i < |after| ==> !Visible(after[i])
    requires lines != [] && Visible(lines[0]) && Visible(lines[|lines| - 1])
    ensures Lines(PlainForm(text)) == CollapsedLines(lines)
  {
    var all := before + lines + after;
    hide Visible, UnifiedBreaks, JoinedBy, Lines, Collapsed, Trimmed, WithoutNul;
    BreaksAreUnified(all, mark);
    LinesOfJoined(all);
    forall line ensures Collapsed(line) == "" <==> !Visible(line) { CollapsedShows(line); }
    assert CollapsedLines(all) == CollapsedLines(before) + CollapsedLines(lines) + CollapsedLines(after);
    TrimmedMeans(CollapsedLines(before), CollapsedLines(lines), CollapsedLines(after));
    forall i | 0 <= i < |lines| ensures '\n' !in CollapsedLines(lines)[i] {
      assert all[|before| + i] == lines[i];
      CollapsedIsLine(lines[i]);
    }
    LinesOfJoined(CollapsedLines(lines));
  }
}
