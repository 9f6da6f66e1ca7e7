/** Editor helpers that only compute: the string splice of `insertFormat`, the view-mode
    cycle of `toggleView`, `sanitizeFilename`, the counts of `updateNoteStats`, and the
    title taken from the first line of imported or pasted text. The same `insertFormat`
    and `toggleView` appear in public/app.js and app.js. */
module Editing {
  import opened Text

  /** The editor text and the collapsed cursor after an edit. */
  datatype Splice = Splice(text: string, cursor: nat)

  /** `insertFormat(before, after)` on the text with selection `start..end`: the
      selection is wrapped in the two markers; the cursor goes after the closing marker
      when something was selected, otherwise between the markers. */
  function InsertFormatted(text: string, start: nat, end: nat, before: string, after: string): (r: Splice)
    requires start <= end <= |text|
    ensures |r.text| == |text| + |before| + |after|
    ensures r.cursor <= |r.text|
  {
    var selected := text[start..end];
    var newText := text[..start] + before + selected + after + text[end..];
    var cursor := if selected != "" then start + |before| + |selected| + |after| else start + |before|;
    Splice(newText, cursor)
  }

  /** The markers sit exactly around the old selection: cutting them out gives back the
      original text, and the text up to the cursor is the text before the selection,
      the opening marker and, when there was a selection, the selection and the closing
      marker. */
  lemma InsertFormattedUnwraps(text: string, start: nat, end: nat, before: string, after: string)
    requires start <= end <= |text|
    ensures var r := InsertFormatted(text, start, end, before, after);
      var open := start + |before|;
      var close := open + (end - start);
      close + |after| <= |r.text| &&
      r.text[..start] + r.text[open..close] + r.text[close + |after|..] == text &&
      r.text[start..open] == before && r.text[close..close + |after|] == after &&
      r.text[..r.cursor] == text[..start] + before + (if start < end then text[start..end] + after else "")
  {
    var r := InsertFormatted(text, start, end, before, after);
    var sel := text[start..end];
    Pieces(text[..start], before, sel, after, text[end..]);
    Text.SliceThree(text, start, end);
  }

  /** The slices of a concatenation of five strings at the piece boundaries. */
  lemma Pieces(a: string, b: string, c: string, d: string, e: string)
    ensures var t := a + b + c + d + e;
      var i, j, k := |a|, |a| + |b|, |a| + |b| + |c|;
      t[..i] == a && t[i..j] == b && t[j..k] == c && t[k..k + |d|] == d && t[k + |d|..] == e &&
      t[..j] == a + b && t[..k + |d|] == a + b + c + d
  {
  }

  const SPLIT: string := "split"
  const PREVIEW_ONLY: string := "preview-only"
  const EDITOR_ONLY: string := "editor-only"

  /** The next value of `viewMode` after `toggleView`. */
  function NextViewMode(mode: string): (r: string)
    ensures r == SPLIT || r == PREVIEW_ONLY || r == EDITOR_ONLY
    ensures r != mode
  {
    if mode == SPLIT then PREVIEW_ONLY
    else if mode == PREVIEW_ONLY then EDITOR_ONLY
    else SPLIT
  }

  /** The three modes form a cycle of length three, and any other value goes to `split`. */
  lemma ViewModeCycle(mode: string)
    ensures mode == SPLIT || mode == PREVIEW_ONLY || mode == EDITOR_ONLY ==>
      NextViewMode(NextViewMode(NextViewMode(mode))) == mode
    ensures mode != SPLIT && mode != PREVIEW_ONLY && mode != EDITOR_ONLY ==> NextViewMode(mode) == SPLIT
  {
  }

  /** `[a-z0-9]` under the `i` flag: the ASCII letters and digits. */
  predicate IsFilenameChar(c: char) { IsAsciiAlnum(c) }

  /** `name.replace(/[^a-z0-9]/gi, '_').substring(0, 50)`. The pattern runs over UTF-16
      code units, so a character outside the Basic Multilingual Plane becomes `__`; after the
      replacement every character is one code unit, and `substring` counts characters. */
  function SanitizeFilename(name: string): (r: string)
    ensures |r| == if Utf16Length(name) <= 50 then Utf16Length(name) else 50
    ensures forall i :: 0 <= i < |r| ==> (IsFilenameChar(r[i]) || r[i] == '_')
    ensures AllBmp(name) ==>
      forall i :: 0 <= i < |r| ==> (r[i] == name[i] <==> IsFilenameChar(name[i]) || name[i] == '_')
  {
    var replaced := ReplaceOutside(name, IsFilenameChar, '_');
    if AllBmp(name) then ReplaceOutsideBmp(name, IsFilenameChar, '_'); Take(replaced, 50)
    else Take(replaced, 50)
  }

  /** A sanitised name is its own sanitised name. */
  lemma SanitizeFilenameIdempotent(name: string)
    ensures SanitizeFilename(SanitizeFilename(name)) == SanitizeFilename(name)
  {
    var r := SanitizeFilename(name);
    assert AllBmp(r) by {
      assert forall i :: 0 <= i < |r| ==> IsFilenameChar(r[i]) || r[i] == '_';
    }
    ReplaceOutsideKeeps(r, IsFilenameChar, '_');
  }

  /** An astral character in a name becomes `__`. */
  lemma AstralBecomesTwoUnderscores(a: string, c: char, b: string)
    requires IsAstral(c) && Utf16Length(a) + 2 + Utf16Length(b) <= 50
    ensures SanitizeFilename(a + [c] + b) == ReplaceOutside(a, IsFilenameChar, '_') + "__" + ReplaceOutside(b, IsFilenameChar, '_')
  {
    var replaced := ReplaceOutside(a + [c] + b, IsFilenameChar, '_');
    ReplaceOutsideConcat(a + [c], b, IsFilenameChar, '_');
    ReplaceOutsideConcat(a, [c], IsFilenameChar, '_');
    assert ReplaceOutside([c], IsFilenameChar, '_') == "__" by {
      assert [c][1..] == [];
    }
    assert |replaced| <= 50;
    assert SanitizeFilename(a + [c] + b) == Take(replaced, 50);
  }

  /** Number of maximal runs of white space in `s`: the positions where one starts. */
  function WhitespaceRuns(s: string): nat
    decreases |s|
  {
    if s == [] then 0
    else
      var n := |s|;
      var starts := IsJsWhitespace(s[n - 1]) && (n == 1 || !IsJsWhitespace(s[n - 2]));
      WhitespaceRuns(s[..n - 1]) + (if starts then 1 else 0)
  }

  /** Number of words of `s`, the maximal runs of non-white-space characters: the
      reference definition of a word count. */
  function WordRuns(s: string): nat
    decreases |s|
  {
    if s == [] then 0
    else
      var n := |s|;
      var starts := !IsJsWhitespace(s[n - 1]) && (n == 1 || IsJsWhitespace(s[n - 2]));
      WordRuns(s[..n - 1]) + (if starts then 1 else 0)
  }

  /** `content.trim() ? content.trim().split(/\s+/).length : 0`: `split` on runs of white
      space gives one piece more than there are runs. */
  function WordCount(content: string): (n: nat)
    ensures n == 0 <==> Trim(content) == ""
  {
    var t := Trim(content);
    if t == "" then 0 else WhitespaceRuns(t) + 1
  }

  /** The figures of `updateNoteStats`. */
  datatype Stats = Stats(words: nat, chars: nat, lines: nat, readMinutes: nat)

  /** `updateNoteStats`: the words of the text, its length in code units, its lines (`split('\n')`), and
      reading minutes at two hundred words a minute, rounded up. */
  function NoteStats(content: string): (r: Stats)
    ensures r.words == WordRuns(content)
    ensures r.chars == Utf16Length(content)
    ensures r.lines == Count(content, '\n') + 1
    ensures r.readMinutes * 200 >= r.words && (r.readMinutes == 0 || (r.readMinutes - 1) * 200 < r.words)
  {
    WordCountIsWordRuns(content);
    SplitCount(content, '\n');
    var words := WordCount(content);
    Stats(words, Utf16Length(content), |Split(content, '\n')|, (words + 199) / 200)
  }

  /** The word count of the source agrees with the reference definition for every text. */
  lemma WordCountIsWordRuns(content: string)
    ensures WordCount(content) == WordRuns(content)
  {
    var t := Trim(content);
    WordRunsOfTrim(content);
    if t != "" {
      WordRunsOneMoreThanGaps(t);
      assert !IsJsWhitespace(t[|t| - 1]);
      assert WordCount(content) == WhitespaceRuns(t) + 1;
    } else {
      assert WordRuns(t) == 0;
    }
  }

  /** Trimming removes no word. */
  lemma WordRunsOfTrim(content: string)
    ensures WordRuns(Trim(content)) == WordRuns(content)
  {
    var t := Trim(content);
    var k, e := TrimShape(content);
    var lead, tail := content[..k], content[e..];
    calc {
      WordRuns(content);
      { Text.SliceThree(content, k, e); }
      WordRuns((lead + t) + tail);
      { WordRunsAppendWhitespace(lead + t, tail); }
      WordRuns(lead + t);
      { WordRunsPrependWhitespace(lead, t); }
      WordRuns(t);
    }
  }

  /** In a non-empty string that starts with a word, words and gaps alternate. */
  lemma {:induction false} WordRunsOneMoreThanGaps(s: string)
    requires s != [] && !IsJsWhitespace(s[0])
    ensures WordRuns(s) == WhitespaceRuns(s) + (if IsJsWhitespace(s[|s| - 1]) then 0 else 1)
    decreases |s|
  {
    if |s| > 1 {
      var t := s[..|s| - 1];
      assert t[0] == s[0] && t[|t| - 1] == s[|s| - 2];
      WordRunsOneMoreThanGaps(t);
    }
  }

  /** Trailing white space adds no word. */
  lemma {:induction false} WordRunsAppendWhitespace(m: string, w: string)
    requires AllWhitespace(w)
    ensures WordRuns(m + w) == WordRuns(m)
    decreases |w|
  {
    if w != [] {
      var w' := w[..|w| - 1];
      assert (m + w)[..|m + w| - 1] == m + w';
      WordRunsAppendWhitespace(m, w');
    } else {
      assert m + w == m;
    }
  }

  /** Leading white space adds no word. */
  lemma {:induction false} WordRunsPrependWhitespace(w: string, m: string)
    requires AllWhitespace(w)
    ensures WordRuns(w + m) == WordRuns(m)
    decreases |m|
  {
    if m == [] {
      assert w + m == w;
      WordRunsAppendWhitespace([], w);
      assert [] + w == w;
    } else {
      var m' := m[..|m| - 1];
      assert (w + m)[..|w + m| - 1] == w + m';
      WordRunsPrependWhitespace(w, m');
      if |m| > 1 {
        assert (w + m)[|w + m| - 2] == m[|m| - 2];
      }
    }
  }

  /** The heading-mark removal of title extraction: the leading `#` characters, then the
      white space after them. */
  function StripHeadingMarks(line: string): (r: string)
    ensures |r| <= |line| && r == line[|line| - |r|..]
    ensures r == [] || !IsJsWhitespace(r[0])
  {
    if line != [] && line[0] == '#' then
      var r := StripHeadingMarks(line[1..]);
      SuffixOfTail(line, r);
      r
    else TrimStart(line)
  }

  /** The title that importing or pasting text proposes: the first line, heading marks
      removed, cut to fifty characters. */
  function FirstLineTitle(content: string): (r: string)
    ensures |r| <= 50
    ensures forall i :: 0 <= i < |r| ==> r[i] != '\n'
    ensures r == [] || !IsJsWhitespace(r[0])
  {
    var line := Split(content, '\n')[0];
    SplitFirstPiece(content, '\n');
    var stripped := StripHeadingMarks(line);
    SliceAvoids(line, |line| - |stripped|, |line|, '\n');
    SliceAvoids(stripped, 0, if |stripped| <= 50 then |stripped| else 50, '\n');
    Take(stripped, 50)
  }

  /** A slice of a string without `c` has no `c` either. */
  lemma SliceAvoids(s: string, from: nat, to: nat, c: char)
    requires from <= to <= |s| && forall i :: 0 <= i < |s| ==> s[i] != c
    ensures forall i :: 0 <= i < to - from ==> s[from..to][i] != c
  {
    assert forall i :: 0 <= i < to - from ==> s[from..to][i] == s[from + i];
  }

  /** A Markdown heading on the first line yields its text as the title. */
  lemma HeadingBecomesTitle(heading: string, rest: string)
    requires 0 < |heading| <= 50 && heading[0] != '#' && !IsJsWhitespace(heading[0])
    requires forall i :: 0 <= i < |heading| ==> heading[i] != '\n'
    ensures FirstLineTitle("# " + heading + "\n" + rest) == heading
  {
    var line := "# " + heading;
    assert "# " + heading + "\n" + rest == line + ['\n'] + rest;
    SplitFirstOf(line, '\n', rest);
    StripMarkedHeading(heading);
  }

  /** `# ` in front of a heading that starts with neither `#` nor white space is removed. */
  lemma StripMarkedHeading(heading: string)
    requires heading != [] && heading[0] != '#' && !IsJsWhitespace(heading[0])
    ensures StripHeadingMarks("# " + heading) == heading
  {
    var line := "# " + heading;
    assert StripHeadingMarks(line) == StripHeadingMarks(" " + heading) by {
      assert line[1..] == " " + heading;
      StripOneMark(line);
    }
    StripSpace(heading);
  }

  /** One leading `#` is dropped. */
  lemma StripOneMark(line: string)
    requires line != [] && line[0] == '#'
    ensures StripHeadingMarks(line) == StripHeadingMarks(line[1..])
  {
  }

  /** Without further `#`, a leading space goes with the rest of the white space. */
  lemma StripSpace(heading: string)
    requires heading != [] && heading[0] != '#' && !IsJsWhitespace(heading[0])
    ensures StripHeadingMarks(" " + heading) == heading
  {
    var spaced := " " + heading;
    assert TrimStart(spaced) == TrimStart(heading) by {
      assert spaced[1..] == heading;
    }
  }

}
