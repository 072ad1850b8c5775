/** `normalize_srt_inplace` of tasks.py, from the blocks of the file on:
    each block is split into lines the way `str.splitlines` does; a block
    whose first line is an index and whose second line starts with a
    timing range becomes index, timing and one merged text line; any other
    block is kept with its surrounding whitespace trimmed; the blocks are
    joined by blank lines and the file ends in exactly one newline. */
module LegacySrt {

  import opened Strings
  import opened LegacyText
  import opened LegacySubtitles

  // ------------------------------------------------------------ line breaks

  /** The line boundaries of `str.splitlines`. */
  predicate LineBreak(c: char) {
    || c == '\n' || c == '\r' || c == '\U{0B}' || c == '\U{0C}'
    || ('\U{1C}' <= c <= '\U{1E}') || c == '\U{85}' || c == '\U{2028}' || c == '\U{2029}'
  }

  predicate NoBreak(s: string) {
    forall i :: 0 <= i < |s| ==> !LineBreak(s[i])
  }

  /** Where the first line ends: the first boundary, or the length. */
  function BreakIndex(s: string): (k: nat)
    ensures k <= |s| && NoBreak(s[..k])
    ensures k < |s| ==> LineBreak(s[k])
  {
    if s == "" || LineBreak(s[0]) then 0
    else
      var k := BreakIndex(s[1..]);
      assert s[..k + 1] == [s[0]] + s[1..][..k];
      k + 1
  }

  /** `s.splitlines()`: "\r\n" counts as one boundary and a final boundary
      does not open an empty line. */
  function SplitLines(s: string): (lines: seq<string>)
    ensures forall i :: 0 <= i < |lines| ==> NoBreak(lines[i])
    decreases |s|
  {
    if s == "" then []
    else
      var k := BreakIndex(s);
      if k == |s| then [s]
      else
        var width := if s[k] == '\r' && k + 1 < |s| && s[k + 1] == '\n' then 2 else 1;
        [s[..k]] + SplitLines(s[k + width..])
  }

  lemma BreakIndexOfJoin(a: string, b: string)
    requires NoBreak(a)
    ensures BreakIndex(a + "\n" + b) == |a|
    decreases |a|
  {
    if a != "" {
      assert (a + "\n" + b)[1..] == a[1..] + "\n" + b;
      BreakIndexOfJoin(a[1..], b);
    }
  }

  /** Lines without boundaries, the last one not empty, come back from
      their '\n'-join. */
  lemma {:induction false} SplitLinesJoin(lines: seq<string>)
    requires |lines| > 0 && lines[|lines| - 1] != ""
    requires forall i :: 0 <= i < |lines| ==> NoBreak(lines[i])
    ensures SplitLines(Join(lines, "\n")) == lines
    decreases |lines|
  {
    if |lines| == 1 {
      assert BreakIndex(lines[0]) == |lines[0]|;
    } else {
      var rest := Join(lines[1..], "\n");
      var s := lines[0] + "\n" + rest;
      BreakIndexOfJoin(lines[0], rest);
      assert s[..|lines[0]|] == lines[0];
      assert s[|lines[0]| + 1..] == rest;
      SplitLinesJoin(lines[1..]);
    }
  }

  // ----------------------------------------------------------------- timing

  /** `\d{2}:\d{2}:\d{2},\d{3}` at index `i` of `s` (ASCII digits). */
  predicate StampAt(s: string, i: nat) {
    && i + 12 <= |s|
    && IsDigit(s[i]) && IsDigit(s[i + 1]) && s[i + 2] == ':'
    && IsDigit(s[i + 3]) && IsDigit(s[i + 4]) && s[i + 5] == ':'
    && IsDigit(s[i + 6]) && IsDigit(s[i + 7]) && s[i + 8] == ','
    && IsDigit(s[i + 9]) && IsDigit(s[i + 10]) && IsDigit(s[i + 11])
  }

  /** The index of the first character at or after `i` that is not
      whitespace (`\s*` is greedy). */
  function SkipSpaces(s: string, i: nat): (j: nat)
    requires i <= |s|
    ensures i <= j <= |s| && (j < |s| ==> !IsSpace(s[j]))
    decreases |s| - i
  {
    if i < |s| && IsSpace(s[i]) then SkipSpaces(s, i + 1) else i
  }

  /** `ts_re.match(s)`: a stamp, optional whitespace, "-->", optional
      whitespace, a stamp; anything may follow. */
  predicate IsTiming(s: string) {
    && StampAt(s, 0)
    && var j := SkipSpaces(s, 12);
       j + 3 <= |s| && s[j] == '-' && s[j + 1] == '-' && s[j + 2] == '>'
       && StampAt(s, SkipSpaces(s, j + 3))
  }

  // ----------------------------------------------------------------- blocks

  /** The first line of a cue: digits once trimmed. */
  predicate IndexLine(ln: string) {
    IsNumeral(Strip(ln))
  }

  /** The second line of a cue: a timing range once trimmed. */
  predicate TimingLine(ln: string) {
    IsTiming(Strip(ln))
  }

  predicate WellFormed(lines: seq<string>) {
    |lines| >= 3 && IndexLine(lines[0]) && TimingLine(lines[1])
  }

  /** One block of the rewritten file. */
  function NormalizeBlock(blk: string): (r: string)
    ensures !WellFormed(SplitLines(blk)) ==> r == Strip(blk)
  {
    var lines := SplitLines(blk);
    if WellFormed(lines) then Rewritten(lines) else Strip(blk)
  }

  /** Index, timing and merged text of a well-formed block. */
  function Rewritten(lines: seq<string>): string
    requires |lines| >= 3
  {
    Strip(lines[0]) + "\n" + Strip(lines[1]) + "\n" + LegacyMerge(lines[2..])
  }

  /** The rewritten file. */
  function NormalizeSrt(blocks: seq<string>): (r: string)
    ensures r != "" && r[|r| - 1] == '\n'
    ensures |r| == 1 || !IsSpace(r[|r| - 2])
  {
    Finish(Join(NormalizeBlocks(blocks), "\n\n"))
  }

  /** `body.rstrip() + "\n"`. */
  function Finish(body: string): (r: string)
    ensures r != "" && r[|r| - 1] == '\n'
    ensures |r| == 1 || !IsSpace(r[|r| - 2])
  {
    var t := TrimEnd(body, IsSpace);
    assert (t + "\n")[..|t|] == t;
    t + "\n"
  }

  function NormalizeBlocks(blocks: seq<string>): (out: seq<string>)
    ensures |out| == |blocks|
    ensures forall i :: 0 <= i < |blocks| ==> out[i] == NormalizeBlock(blocks[i])
  {
    seq(|blocks|, i requires 0 <= i < |blocks| => NormalizeBlock(blocks[i]))
  }

  // ------------------------------------------------------------- properties

  lemma NoBreakNoNewline(s: string)
    requires NoBreak(s)
    ensures '\n' !in s
  {
  }

  lemma StripNoBreak(s: string)
    requires NoBreak(s)
    ensures '\n' !in Strip(s)
  {
    NoBreakNoNewline(s);
    TrimKeepsChars(s, IsSpace);
  }

  lemma SplitThree(a: string, b: string, c: string)
    requires '\n' !in a && '\n' !in b && '\n' !in c
    ensures Split(a + "\n" + b + "\n" + c, '\n') == [a, b, c]
  {
    var parts := [a, b, c];
    assert Join(parts[1..], "\n") == b + "\n" + c;
    assert a + "\n" + b + "\n" + c == Join(parts, "\n");
    SplitJoin(parts, '\n');
  }

  lemma SplitLinesThree(a: string, b: string, c: string)
    requires NoBreak(a) && NoBreak(b) && NoBreak(c) && c != ""
    ensures SplitLines(a + "\n" + b + "\n" + c) == [a, b, c]
  {
    var parts := [a, b, c];
    assert Join(parts[1..], "\n") == b + "\n" + c;
    assert a + "\n" + b + "\n" + c == Join(parts, "\n");
    SplitLinesJoin(parts);
  }

  /** A well-formed block becomes exactly three lines: the trimmed index,
      the trimmed timing and the merged text. */
  lemma BlockShape(blk: string)
    requires WellFormed(SplitLines(blk))
    ensures var lines := SplitLines(blk);
            Split(NormalizeBlock(blk), '\n') == [Strip(lines[0]), Strip(lines[1]), LegacyMerge(lines[2..])]
  {
    var lines := SplitLines(blk);
    StripNoBreak(lines[0]);
    StripNoBreak(lines[1]);
    var text := lines[2..];
    forall i | 0 <= i < |text| ensures '\n' !in text[i] {
      NoBreakNoNewline(text[i]);
    }
    LegacyMergeNoNewline(text);
    SplitThree(Strip(lines[0]), Strip(lines[1]), LegacyMerge(text));
  }

  /** A text line the merger has nothing to do to: no tags, single-spaced,
      tight before punctuation, trimmed, not opening dialogue. */
  predicate SettledText(text: string) {
    Visible(text) && TagFree(text) && SingleSpaced(text) && TightPunct(text) && !OpensDialog(text)
  }

  lemma MergeSettled(text: string)
    requires SettledText(text)
    ensures LegacyMerge([text]) == text
  {
    StripTagsOfTagFree(text);
    TrimOfTrimmed(text, IsSpace);
    assert CleanLine(text) == text;
    assert [text][1..] == [];
    assert CleanLines([text]) == [text];
    assert !HasDialog([text]);
    assert Join([text], Separator([text])) == text;
    CollapseOfSingleSpaced(text);
    UnspaceOfTight(text);
  }

  lemma StripOfNumeral(index: string)
    requires IsNumeral(index)
    ensures Strip(index) == index
  {
    assert !IsSpace(index[0]) && !IsSpace(index[|index| - 1]);
    StripOfVisibleEnds(index);
  }

  lemma SettledHeader(index: string, timing: string)
    requires IsNumeral(index) && IsTiming(timing) && Visible(timing)
    ensures IndexLine(index) && TimingLine(timing)
  {
    StripOfNumeral(index);
    StripOfVisibleEnds(timing);
  }

  lemma WellFormedOf(index: string, timing: string, text: string)
    requires IndexLine(index) && TimingLine(timing)
    ensures WellFormed([index, timing, text])
  {
  }

  lemma RewrittenSettled(index: string, timing: string, text: string)
    requires IsNumeral(index) && Visible(timing)
    ensures Rewritten([index, timing, text]) == index + "\n" + timing + "\n" + LegacyMerge([text])
  {
    StripOfNumeral(index);
    StripOfVisibleEnds(timing);
    RewrittenOf(index, timing, text);
  }

  lemma RewrittenOf(a: string, b: string, c: string)
    ensures Rewritten([a, b, c]) == Strip(a) + "\n" + Strip(b) + "\n" + LegacyMerge([c])
  {
    assert [a, b, c][2..] == [c];
  }

  /** Rewriting a block already in the rewritten form changes nothing. */
  lemma NormalizeBlockSettled(index: string, timing: string, text: string)
    requires IsNumeral(index) && IsTiming(timing) && Visible(timing)
    requires NoBreak(index) && NoBreak(timing) && NoBreak(text) && SettledText(text)
    ensures NormalizeBlock(index + "\n" + timing + "\n" + text) == index + "\n" + timing + "\n" + text
  {
    SplitLinesThree(index, timing, text);
    SettledHeader(index, timing);
    WellFormedOf(index, timing, text);
    MergeSettled(text);
    RewrittenSettled(index, timing, text);
  }

  lemma TrimEndOfVisible(s: string)
    requires s != "" && !IsSpace(s[|s| - 1])
    ensures TrimEnd(s, IsSpace) == s
  {
  }

  lemma EndsWithVisible(p: string, t: string)
    requires t != "" && !IsSpace(t[|t| - 1])
    ensures var b := p + t; b != "" && !IsSpace(b[|b| - 1])
  {
    var b := p + t;
    assert b[|b| - 1] == t[|t| - 1];
  }

  lemma RewrittenEnd(lines: seq<string>)
    requires |lines| >= 3
    ensures LegacyMerge(lines[2..]) != "" ==> var b := Rewritten(lines); b != "" && !IsSpace(b[|b| - 1])
  {
    var t := LegacyMerge(lines[2..]);
    if t != "" {
      EndsWithVisible(Strip(lines[0]) + "\n" + Strip(lines[1]) + "\n", t);
    }
  }

  lemma SingleOut(blocks: seq<string>, b: string)
    requires |blocks| == 1 && NormalizeBlock(blocks[0]) == b
    requires b != "" && !IsSpace(b[|b| - 1])
    ensures NormalizeSrt(blocks) == b + "\n"
  {
    assert NormalizeBlocks(blocks) == [b];
    TrimEndOfVisible(b);
  }

  /** A file of one well-formed block with text is that block and a
      newline. */
  lemma SingleBlockFile(blk: string)
    requires WellFormed(SplitLines(blk)) && LegacyMerge(SplitLines(blk)[2..]) != ""
    ensures NormalizeSrt([blk]) == NormalizeBlock(blk) + "\n"
  {
    var lines := SplitLines(blk);
    var b := NormalizeBlock(blk);
    assert b == Rewritten(lines);
    RewrittenEnd(lines);
    SingleOut([blk], b);
  }
}
