/**
 Blank characters, and the form in which texts are kept: line breaks unified,
 blanks around lines dropped and blanks within them collapsed.
 */
module Texts {
  /** The characters that stripping and splitting treat as white space, in all of Unicode. */
  predicate IsBlank(c: char) {
    || '\U{9}' <= c <= '\U{d}' || '\U{1c}' <= c <= ' ' || '\U{2000}' <= c <= '\U{200a}'
    || c in {'\U{85}', '\U{a0}', '\U{1680}', '\U{2028}', '\U{2029}', '\U{202f}', '\U{205f}', '\U{3000}'}
  }

  function Strip(s: string): string {
    if s == "" then s
    else if IsBlank(s[0]) then Strip(s[1..])
    else if IsBlank(s[|s| - 1]) then Strip(s[..|s| - 1])
    else s
  }

  /** Some character is not blank. */
  predicate Visible(text: string) { exists i :: 0 <= i < |text| && !IsBlank(text[i]) }

  lemma {:induction false} VisibleIffStripped(s: string)
    ensures Visible(s) <==> Strip(s) != ""
    ensures Visible(s) <==> Visible(Strip(s))
  {
    if s == "" {
    } else if IsBlank(s[0]) {
      VisibleIffStripped(s[1..]);
      assert Visible(s) ==> Visible(s[1..]) by { if i :| 0 <= i < |s| && !IsBlank(s[i]) { assert s[1..][i - 1] == s[i]; } }
    } else if IsBlank(s[|s| - 1]) {
      VisibleIffStripped(s[..|s| - 1]);
      assert s[..|s| - 1][0] == s[0];
    }
  }

  lemma VisibleJoin(a: string, b: string)
    ensures Visible(a + b) <==> Visible(a) || Visible(b)
  {
    hide IsBlank;
    if i :| 0 <= i < |a| && !IsBlank(a[i]) { assert (a + b)[i] == a[i]; }
    if i :| 0 <= i < |b| && !IsBlank(b[i]) { assert (a + b)[|a| + i] == b[i]; }
  }

  // ----- lines and words ------------------------------------------------------------------

  /** Carriage returns, with a line feed after them or not, become line feeds. */
  function UnifiedBreaks(s: string): string {
    if s == "" then ""
    else if s[0] == '\r' then "\n" + UnifiedBreaks(if |s| > 1 && s[1] == '\n' then s[2..] else s[1..])
    else [s[0]] + UnifiedBreaks(s[1..])
  }

  /** The pieces between line feeds: one more than there are line feeds. */
  function Lines(s: string): (lines: seq<string>)
    ensures |lines| >= 1
  {
    if s == "" then [""]
    else
      var before, c := Lines(s[..|s| - 1]), s[|s| - 1];
      if c == '\n' then before + [""] else before[|before| - 1 := before[|before| - 1] + [c]]
  }

  /** The pieces between runs of blanks, none of them empty. */
  function Words(s: string): seq<string> {
    if s == "" then []
    else
      var init, c := s[..|s| - 1], s[|s| - 1];
      var before := Words(init);
      if IsBlank(c) then before
      else if before != [] && init != "" && !IsBlank(init[|init| - 1]) then
        before[|before| - 1 := before[|before| - 1] + [c]]
      else before + [[c]]
  }

  function JoinedBy(separator: string, parts: seq<string>): string {
    if parts == [] then ""
    else if |parts| == 1 then parts[0]
    else JoinedBy(separator, parts[..|parts| - 1]) + separator + parts[|parts| - 1]
  }

  function Collapsed(line: string): string { JoinedBy(" ", Words(line)) }

  function CollapsedLines(lines: seq<string>): (r: seq<string>)
    ensures |r| == |lines| && forall i :: 0 <= i < |r| ==> r[i] == Collapsed(lines[i])
  {
    seq(|lines|, i requires 0 <= i < |lines| => Collapsed(lines[i]))
  }

  function TextForm(s: string): string { JoinedBy("\n", CollapsedLines(Lines(Strip(UnifiedBreaks(s))))) }

  // ----- the form shows a text exactly when there is something to show ------------------------

  ghost predicate AnyVisible(parts: seq<string>) { exists i :: 0 <= i < |parts| && Visible(parts[i]) }

  lemma {:induction false} BreaksKeepVisible(s: string)
    ensures Visible(UnifiedBreaks(s)) <==> Visible(s)
  {
    if s != "" {
      var n := if s[0] == '\r' && |s| > 1 && s[1] == '\n' then 2 else 1;
      BreaksKeepVisible(s[n..]);
      var first := if s[0] == '\r' then "\n" else [s[0]];
      assert s == s[..n] + s[n..];
      VisibleJoin(s[..n], s[n..]);
      VisibleJoin(first, UnifiedBreaks(s[n..]));
      assert Visible(s[..n]) <==> Visible(first) by {
        if n == 2 { assert s[..n] == ['\r', '\n']; } else { assert s[..n] == [s[0]]; }
      }
    }
  }

  lemma LastChanged(parts: seq<string>, c: char, more: seq<string>)
    requires parts != [] && more == parts[|parts| - 1 := parts[|parts| - 1] + [c]]
    ensures AnyVisible(more) <==> AnyVisible(parts) || !IsBlank(c)
  {
    hide IsBlank;
    var n := |parts| - 1;
    VisibleJoin(parts[n], [c]);
    assert Visible([c]) <==> !IsBlank(c) by { assert [c][0] == c; }
    hide Visible;
    if AnyVisible(parts) {
      var i :| 0 <= i < |parts| && Visible(parts[i]);
      assert Visible(more[i]);
    }
    if !IsBlank(c) { assert Visible(more[n]); }
  }

  lemma PartAppended(parts: seq<string>, part: string)
    ensures AnyVisible(parts + [part]) <==> AnyVisible(parts) || Visible(part)
  {
    hide Visible;
    if i :| 0 <= i < |parts| && Visible(parts[i]) { assert Visible((parts + [part])[i]); }
    assert (parts + [part])[|parts|] == part;
  }

  lemma {:induction false} LinesKeepVisible(s: string)
    ensures AnyVisible(Lines(s)) <==> Visible(s)
  {
    if s != "" {
      var init, c := s[..|s| - 1], s[|s| - 1];
      LinesKeepVisible(init);
      LastCharacter(s);
      if c == '\n' { PartAppended(Lines(init), ""); } else { LastChanged(Lines(init), c, Lines(s)); }
    }
  }

  lemma LastCharacter(s: string)
    requires s != ""
    ensures Visible(s) <==> Visible(s[..|s| - 1]) || !IsBlank(s[|s| - 1])
  {
    hide IsBlank;
    var c := s[|s| - 1];
    assert s == s[..|s| - 1] + [c];
    VisibleJoin(s[..|s| - 1], [c]);
    assert [c][0] == c;
  }

  lemma {:induction false} WordsKeepVisible(s: string)
    ensures AnyVisible(Words(s)) <==> Visible(s)
    ensures Visible(s) <==> Words(s) != []
  {
    if s != "" {
      var init, c := s[..|s| - 1], s[|s| - 1];
      WordsKeepVisible(init);
      LastCharacter(s);
      if !IsBlank(c) {
        if Words(s) == Words(init) + [[c]] {
          PartAppended(Words(init), [c]);
          assert [c][0] == c;
        } else {
          LastChanged(Words(init), c, Words(s));
        }
      }
    }
  }

  lemma {:induction false} JoinKeepsVisible(separator: string, parts: seq<string>)
    requires !Visible(separator)
    ensures Visible(JoinedBy(separator, parts)) <==> AnyVisible(parts)
  {
    if |parts| > 1 {
      var n := |parts| - 1;
      JoinKeepsVisible(separator, parts[..n]);
      VisibleJoin(JoinedBy(separator, parts[..n]) + separator, parts[n]);
      VisibleJoin(JoinedBy(separator, parts[..n]), separator);
      PartAppended(parts[..n], parts[n]);
      assert parts == parts[..n] + [parts[n]];
    } else if |parts| == 1 {
      assert Visible(parts[0]) <==> AnyVisible(parts);
    }
  }

  /** A text form is visible exactly when its text is; and the form of a text of blanks is empty. */
  lemma TextFormKeepsVisible(s: string)
    ensures Visible(TextForm(s)) <==> Visible(s)
    ensures !Visible(s) ==> TextForm(s) == ""
  {
    var stripped := Strip(UnifiedBreaks(s));
    var lines := Lines(stripped);
    BreaksKeepVisible(s);
    VisibleIffStripped(UnifiedBreaks(s));
    LinesKeepVisible(stripped);
    forall i | 0 <= i < |lines| ensures Visible(Collapsed(lines[i])) <==> Visible(lines[i]) {
      WordsKeepVisible(lines[i]);
      JoinKeepsVisible(" ", Words(lines[i]));
    }
    JoinKeepsVisible("\n", CollapsedLines(lines));
    hide Visible, Strip, UnifiedBreaks, Words;
    assert AnyVisible(CollapsedLines(lines)) <==> AnyVisible(lines);
    if !Visible(s) { BlankForm(); }
  }

  lemma BlankForm()
    ensures JoinedBy("\n", CollapsedLines(Lines(""))) == ""
  {
    assert Lines("") == [""] && Collapsed("") == "";
  }

  // ----- the form of recognized text ------------------------------------------------------------

  function WithoutNul(s: string): (r: string)
    ensures '\0' !in r && forall c :: c in r ==> c in s
    ensures '\0' !in s ==> r == s
  {
    if s == "" then ""
    else
      var init, c := s[..|s| - 1], s[|s| - 1];
      assert s == init + [c];
      WithoutNul(init) + if c == '\0' then "" else [c]
  }

  /** The lines from the first that is not empty to the last. */
  function Trimmed(lines: seq<string>): (r: seq<string>)
    ensures forall line :: line in r ==> line in lines
    ensures r != [] ==> r[0] != "" && r[|r| - 1] != ""
  {
    if lines == [] then []
    else if lines[0] == "" then Trimmed(lines[1..])
    else if lines[|lines| - 1] == "" then Trimmed(lines[..|lines| - 1])
    else lines
  }

  /** As `TextForm`, but without null characters, and with blank lines dropped from both ends. */
  function PlainForm(s: string): string {
    JoinedBy("\n", Trimmed(CollapsedLines(Lines(UnifiedBreaks(WithoutNul(s))))))
  }

  // ----- recognized text in its form stays as it is -----------------------------------------------

  predicate Clean(word: string) { word != "" && forall i :: 0 <= i < |word| ==> !IsBlank(word[i]) }

  ghost predicate AllClean(words: seq<string>) { forall i :: 0 <= i < |words| ==> Clean(words[i]) }

  /** All characters of all parts are of the text. */
  ghost predicate Within(parts: seq<string>, s: string) {
    forall i, c :: 0 <= i < |parts| && c in parts[i] ==> c in s
  }

  lemma {:induction false} WordsAreClean(s: string)
    ensures AllClean(Words(s)) && Within(Words(s), s)
  {
    hide IsBlank;
    if s != "" {
      WordsAreClean(s[..|s| - 1]);
      assert s == s[..|s| - 1] + [s[|s| - 1]];
    }
  }

  lemma {:induction false} WordAppended(s: string, word: string)
    requires Clean(word) && (s == "" || IsBlank(s[|s| - 1]))
    ensures Words(s + word) == Words(s) + [word]
  {
    hide IsBlank;
    var n := |word| - 1;
    assert (s + word)[..|s| + n] == s + word[..n] && word == word[..n] + [word[n]];
    if n == 0 {
      assert word[..0] == "" && s + "" == s;
    } else {
      WordAppended(s, word[..n]);
    }
  }

  lemma {:induction false} WordsOfJoined(words: seq<string>)
    requires AllClean(words)
    ensures Words(JoinedBy(" ", words)) == words
  {
    hide IsBlank, Clean;
    if |words| == 1 {
      WordAppended("", words[0]);
      assert "" + words[0] == words[0] && words == [] + [words[0]];
    } else if |words| > 1 {
      var n := |words| - 1;
      var before := JoinedBy(" ", words[..n]);
      WordsOfJoined(words[..n]);
      BlankAppended(before);
      WordAppended(before + " ", words[n]);
      assert words == words[..n] + [words[n]];
    }
  }

  lemma BlankAppended(s: string)
    ensures Words(s + " ") == Words(s) && IsBlank((s + " ")[|s|])
  {
    assert (s + " ")[..|s|] == s;
  }

  lemma CollapsedAgain(line: string)
    ensures Collapsed(Collapsed(line)) == Collapsed(line)
  {
    WordsAreClean(line);
    WordsOfJoined(Words(line));
  }

  lemma {:induction false} JoinedCharacters(separator: string, parts: seq<string>, c: char)
    requires c in JoinedBy(separator, parts)
    ensures c in separator || exists i :: 0 <= i < |parts| && c in parts[i]
  {
    if |parts| > 1 {
      var n := |parts| - 1;
      if c in JoinedBy(separator, parts[..n]) {
        JoinedCharacters(separator, parts[..n], c);
        if c !in separator {
          var i :| 0 <= i < n && c in parts[..n][i];
          assert c in parts[i];
        }
      }
    } else if |parts| == 1 {
      assert c in parts[0];
    }
  }

  lemma CollapsedCharacters(line: string, c: char)
    requires c in Collapsed(line)
    ensures (c == ' ' || !IsBlank(c)) && (c == ' ' || c in line)
  {
    WordsAreClean(line);
    JoinedCharacters(" ", Words(line), c);
    if c != ' ' {
      var i :| 0 <= i < |Words(line)| && c in Words(line)[i];
      assert Clean(Words(line)[i]);
    }
  }

  lemma {:induction false} LinesAreWithin(s: string)
    ensures Within(Lines(s), s)
  {
    if s != "" {
      LinesAreWithin(s[..|s| - 1]);
      assert s == s[..|s| - 1] + [s[|s| - 1]];
    }
  }

  lemma {:induction false} LineAppended(s: string, line: string)
    requires '\n' !in line
    ensures var before := Lines(s);
      Lines(s + line) == before[|before| - 1 := before[|before| - 1] + line]
  {
    var before := Lines(s);
    if line == "" {
      assert s + line == s && before[|before| - 1] + line == before[|before| - 1];
    } else {
      var n := |line| - 1;
      LineAppended(s, line[..n]);
      assert (s + line)[..|s| + n] == s + line[..n] && line == line[..n] + [line[n]];
      assert before[|before| - 1] + line == (before[|before| - 1] + line[..n]) + [line[n]];
    }
  }

  lemma {:induction false} LinesOfJoined(lines: seq<string>)
    requires lines != [] && forall i :: 0 <= i < |lines| ==> '\n' !in lines[i]
    ensures Lines(JoinedBy("\n", lines)) == lines
  {
    hide Lines;
    var n := |lines| - 1;
    if n == 0 {
      LineAlone(lines[0]);
    } else {
      var before := JoinedBy("\n", lines[..n]);
      LinesOfJoined(lines[..n]);
      FeedAppended(before);
      LineAppended(before + "\n", lines[n]);
      LastLine(lines);
    }
  }

  lemma LineAlone(line: string)
    requires '\n' !in line
    ensures Lines(line) == [line]
  {
    LineAppended("", line);
    assert "" + line == line;
  }

  lemma FeedAppended(s: string)
    ensures Lines(s + "\n") == Lines(s) + [""]
  {
    assert (s + "\n")[..|s|] == s;
  }

  lemma LastLine(lines: seq<string>)
    requires lines != []
    ensures var n := |lines| - 1;
      (lines[..n] + [""])[n := "" + lines[n]] == lines
  {
    assert "" + lines[|lines| - 1] == lines[|lines| - 1];
  }

  lemma {:induction false} NoBreaksToUnify(s: string)
    requires '\r' !in s
    ensures UnifiedBreaks(s) == s
  {
    if s != "" {
      assert s == [s[0]] + s[1..];
      assert s[0] in s && '\r' !in s[1..];
      NoBreaksToUnify(s[1..]);
    }
  }

  lemma {:induction false} BreaksAreWithin(s: string, c: char)
    requires c in UnifiedBreaks(s)
    ensures c == '\n' || c in s
  {
    if s != "" {
      var n := if s[0] == '\r' && |s| > 1 && s[1] == '\n' then 2 else 1;
      if c in UnifiedBreaks(s[n..]) { BreaksAreWithin(s[n..], c); }
    }
  }

  /** A line of the form has been collapsed, and holds neither breaks nor null characters. */
  ghost predicate PlainLine(line: string) { Collapsed(line) == line && '\n' !in line && '\r' !in line && '\0' !in line }

  lemma PlainLines(s: string)
    requires '\0' !in s
    ensures forall line :: line in CollapsedLines(Lines(UnifiedBreaks(s))) ==> PlainLine(line)
  {
    hide Collapsed, IsBlank, Lines, UnifiedBreaks;
    var lines := Lines(UnifiedBreaks(s));
    LinesAreWithin(UnifiedBreaks(s));
    forall i | 0 <= i < |lines| ensures PlainLine(Collapsed(lines[i])) {
      CollapsedAgain(lines[i]);
      forall c | c in Collapsed(lines[i]) ensures c != '\n' && c != '\r' && c != '\0' {
        CollapsedCharacters(lines[i], c);
        BreaksAreBlank();
        if c != ' ' { BreaksAreWithin(s, c); }
      }
    }
  }

  lemma BreaksAreBlank()
    ensures IsBlank('\n') && IsBlank('\r')
  {
  }

  lemma PlainFormOf(lines: seq<string>)
    requires forall line :: line in lines ==> PlainLine(line)
    requires lines != [] ==> lines[0] != "" && lines[|lines| - 1] != ""
    ensures PlainForm(JoinedBy("\n", lines)) == JoinedBy("\n", lines)
  {
    hide JoinedBy, UnifiedBreaks, Lines, WithoutNul, Collapsed, Trimmed;
    if lines == [] {
      EmptyForm();
    } else {
      var s := JoinedBy("\n", lines);
      assert forall i :: 0 <= i < |lines| ==> PlainLine(lines[i]) by { assert forall i :: 0 <= i < |lines| ==> lines[i] in lines; }
      JoinedPlain(lines);
      NoBreaksToUnify(s);
      LinesOfJoined(lines);
      TrimmedAgain(lines);
      CollapsedAll(lines);
    }
  }

  lemma TrimmedAgain(lines: seq<string>)
    requires lines != [] && lines[0] != "" && lines[|lines| - 1] != ""
    ensures Trimmed(lines) == lines
  {
  }

  lemma CollapsedAll(lines: seq<string>)
    requires forall i :: 0 <= i < |lines| ==> Collapsed(lines[i]) == lines[i]
    ensures CollapsedLines(lines) == lines
  {
    hide Collapsed;
  }

  lemma JoinedPlain(lines: seq<string>)
    requires forall line :: line in lines ==> PlainLine(line)
    ensures '\0' !in JoinedBy("\n", lines) && '\r' !in JoinedBy("\n", lines)
  {
    hide JoinedBy, Collapsed;
    forall c | c in JoinedBy("\n", lines) ensures c != '\0' && c != '\r' {
      JoinedCharacters("\n", lines, c);
      if c != '\n' {
        var i :| 0 <= i < |lines| && c in lines[i];
        assert PlainLine(lines[i]) by { assert lines[i] in lines; }
      }
    }
  }

  lemma EmptyForm()
    ensures JoinedBy("\n", []) == "" && PlainForm("") == ""
  {
    assert Lines("") == [""] && Collapsed("") == "";
    assert CollapsedLines([""])[1..] == [];
  }

  /** A text in its form is in its form: recognized text that was normalized stays as it is. */
  lemma PlainFormAgain(s: string)
    ensures PlainForm(PlainForm(s)) == PlainForm(s)
  {
    hide UnifiedBreaks, Lines, CollapsedLines, WithoutNul, JoinedBy, PlainLine;
    PlainLines(WithoutNul(s));
    PlainFormOf(Trimmed(CollapsedLines(Lines(UnifiedBreaks(WithoutNul(s))))));
  }
}
