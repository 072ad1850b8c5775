/** Cue-text merging of service/utils/subtitles.py: the lines of one
    subtitle cue become a single line, glued without a space where a CJK
    character meets a CJK character and with one space elsewhere; the cues
    of a file are then re-rendered, dropping those left without text. */
module SubtitleMerge {

  import opened Options
  import opened Strings

  /** `_is_cjk_char`: CJK unified ideographs, extension A, kana, Hangul
      syllables. */
  predicate IsCjk(c: char) {
    || (0x4E00 <= c as int <= 0x9FFF) || (0x3400 <= c as int <= 0x4DBF)
    || (0x3040 <= c as int <= 0x30FF) || (0xAC00 <= c as int <= 0xD7AF)
  }

  /** The range table `_cjk_ranges`, as inclusive code-point bounds. */
  const CjkRanges: seq<(int, int)> := [(0x4E00, 0x9FFF), (0x3400, 0x4DBF), (0x3040, 0x30FF), (0xAC00, 0xD7AF)]

  /** The loop of `_is_cjk_char`: does some range of the table hold `cp`? */
  function InRanges(cp: int, ranges: seq<(int, int)>): (b: bool)
    ensures b <==> exists k :: 0 <= k < |ranges| && ranges[k].0 <= cp <= ranges[k].1
  {
    if ranges == [] then false
    else if ranges[0].0 <= cp <= ranges[0].1 then true
    else
      var rest := InRanges(cp, ranges[1..]);
      assert forall k :: 1 <= k < |ranges| ==> ranges[k] == ranges[1..][k - 1];
      rest
  }

  /** Scanning the table agrees with the four-way test used everywhere
      else. */
  lemma IsCjkScan(c: char)
    ensures InRanges(c as int, CjkRanges) <==> IsCjk(c)
  {
    var cp := c as int;
    if IsCjk(c) {
      if 0x4E00 <= cp <= 0x9FFF { assert CjkRanges[0].0 <= cp <= CjkRanges[0].1; }
      else if 0x3400 <= cp <= 0x4DBF { assert CjkRanges[1].0 <= cp <= CjkRanges[1].1; }
      else if 0x3040 <= cp <= 0x30FF { assert CjkRanges[2].0 <= cp <= CjkRanges[2].1; }
      else { assert CjkRanges[3].0 <= cp <= CjkRanges[3].1; }
    }
  }

  predicate AllNonEmpty(cl: seq<string>) {
    forall i :: 0 <= i < |cl| ==> cl[i] != ""
  }

  /** `[ln.strip() for ln in lines if ln.strip()]`. */
  function Cleaned(lines: seq<string>): (cl: seq<string>)
    ensures AllNonEmpty(cl) && |cl| <= |lines|
    ensures |cl| == 0 <==> forall i :: 0 <= i < |lines| ==> Strip(lines[i]) == ""
  {
    if |lines| == 0 then []
    else
      var rest := Cleaned(lines[1..]);
      var c := Strip(lines[0]);
      BlankCons(lines);
      if c != "" then ConsNonEmpty(c, rest); [c] + rest else rest
  }

  lemma ConsNonEmpty(c: string, rest: seq<string>)
    requires c != "" && AllNonEmpty(rest)
    ensures AllNonEmpty([c] + rest) && |[c] + rest| != 0
  {
  }

  lemma BlankCons(lines: seq<string>)
    requires |lines| > 0
    ensures (forall i :: 0 <= i < |lines| ==> Strip(lines[i]) == "")
        <==> Strip(lines[0]) == "" && forall i :: 0 <= i < |lines[1..]| ==> Strip(lines[1..][i]) == ""
  {
    assert forall i :: 1 <= i < |lines| ==> lines[i] == lines[1..][i - 1];
  }

  function Last(s: string): char
    requires s != ""
  {
    s[|s| - 1]
  }

  /** Whether two neighbouring pieces are glued without a space. */
  predicate Glued(prev: char, next: char) {
    IsCjk(prev) && IsCjk(next)
  }

  /** The loop of `_merge_lines_to_single` over the cleaned lines: each
      line is appended, directly when the text so far ends in a CJK
      character and the line starts with one, else after one space. */
  function Merge(cl: seq<string>): (r: string)
    requires AllNonEmpty(cl)
    ensures |cl| > 0 ==> r != "" && cl[0] <= r && Last(r) == Last(cl[|cl| - 1])
    ensures |cl| == 0 ==> r == ""
    decreases |cl|
  {
    if |cl| == 0 then ""
    else if |cl| == 1 then cl[0]
    else
      var init := cl[..|cl| - 1];
      var line := cl[|cl| - 1];
      var r := Merge(init);
      assert init[0] == cl[0];
      r + (if Glued(Last(r), line[0]) then "" else " ") + line
  }

  /** `_merge_lines_to_single(lines)`. */
  function MergeLines(lines: seq<string>): (r: string)
    ensures r == "" <==> forall i :: 0 <= i < |lines| ==> Strip(lines[i]) == ""
    ensures r != "" ==> Cleaned(lines)[0] <= r
  {
    if |lines| == 0 then "" else Merge(Cleaned(lines))
  }

  // ------------------------------------------------------------ properties

  /** How many neighbouring lines are separated by a space, decided by the
      lines themselves: the last character of one and the first of the
      next. */
  function Spaces(cl: seq<string>): nat
    requires AllNonEmpty(cl)
  {
    if |cl| <= 1 then 0
    else Spaces(cl[..|cl| - 1]) + if Glued(Last(cl[|cl| - 2]), cl[|cl| - 1][0]) then 0 else 1
  }

  function TotalLength(cl: seq<string>): nat {
    if |cl| == 0 then 0 else TotalLength(cl[..|cl| - 1]) + |cl[|cl| - 1]|
  }

  /** Appending a line glues it by looking at the previous line's last
      character: the merged text so far ends where that line ends. */
  lemma MergeAppend(cl: seq<string>, line: string)
    requires AllNonEmpty(cl) && |cl| > 0 && line != ""
    ensures Merge(cl + [line]) == Merge(cl) + (if Glued(Last(cl[|cl| - 1]), line[0]) then "" else " ") + line
  {
    var all := cl + [line];
    assert all[..|all| - 1] == cl;
  }

  /** The merged text is exactly the lines plus one space per unglued
      neighbouring pair. */
  lemma {:induction false} MergeLength(cl: seq<string>)
    requires AllNonEmpty(cl)
    ensures |Merge(cl)| == TotalLength(cl) + Spaces(cl)
    decreases |cl|
  {
    if |cl| > 1 {
      var init := cl[..|cl| - 1];
      MergeLength(init);
      assert init[|init| - 1] == cl[|cl| - 2];
    } else if |cl| == 1 {
      assert cl[..0] == [];
    }
  }

  /** Two lines of CJK text meet without a space; otherwise one space. */
  lemma MergeTwo(a: string, b: string)
    requires a != "" && b != ""
    ensures Merge([a, b]) == a + (if Glued(Last(a), b[0]) then "" else " ") + b
  {
    assert [a, b][..1] == [a];
  }

  // ----------------------------------------------------------------- cues

  /** One cue the pattern matched: its index, its timing line and the raw
      text up to the next cue. */
  datatype Cue = Cue(index: string, timing: string, text: string)

  function CueText(c: Cue): string {
    MergeLines(Split(c.text, '\n'))
  }

  function Render(c: Cue): string {
    RenderBlock(c.index, c.timing, CueText(c))
  }

  function RenderBlock(index: string, timing: string, text: string): string {
    index + "\n" + timing + "\n" + text + "\n"
  }

  /** The merged text of every cue. */
  function Texts(cues: seq<Cue>): (t: seq<string>)
    ensures |t| == |cues| && forall i :: 0 <= i < |cues| ==> t[i] == CueText(cues[i])
  {
    seq(|cues|, i requires 0 <= i < |cues| => CueText(cues[i]))
  }

  /** The cues rendered with the given texts, skipping empty ones. */
  function Kept(cues: seq<Cue>, texts: seq<string>): (r: seq<string>)
    requires |texts| == |cues|
    ensures |r| <= |cues|
    ensures |r| == 0 <==> forall i :: 0 <= i < |texts| ==> texts[i] == ""
  {
    if |cues| == 0 then []
    else
      var rest := Kept(cues[1..], texts[1..]);
      assert forall i :: 1 <= i < |texts| ==> texts[i] == texts[1..][i - 1];
      if texts[0] != "" then [RenderBlock(cues[0].index, cues[0].timing, texts[0])] + rest else rest
  }

  /** The rendered cues whose merged text is not empty, in order. */
  function Blocks(cues: seq<Cue>): (r: seq<string>)
    ensures |r| <= |cues|
    ensures |r| == 0 <==> forall i :: 0 <= i < |cues| ==> CueText(cues[i]) == ""
  {
    Kept(cues, Texts(cues))
  }

  lemma {:induction false} KeptRendered(cues: seq<Cue>, texts: seq<string>, b: string)
    requires |texts| == |cues| && b in Kept(cues, texts)
    ensures exists i :: 0 <= i < |cues| && texts[i] != "" && b == RenderBlock(cues[i].index, cues[i].timing, texts[i])
    decreases |cues|
  {
    if !(texts[0] != "" && b == RenderBlock(cues[0].index, cues[0].timing, texts[0])) {
      KeptRendered(cues[1..], texts[1..], b);
      var i :| 0 <= i < |cues[1..]| && texts[1..][i] != "" && b == RenderBlock(cues[1..][i].index, cues[1..][i].timing, texts[1..][i]);
      assert cues[1..][i] == cues[i + 1] && texts[1..][i] == texts[i + 1];
    }
  }

  /** Every block is the rendering of a cue that kept text. */
  lemma BlocksRendered(cues: seq<Cue>, b: string)
    requires b in Blocks(cues)
    ensures exists i :: 0 <= i < |cues| && CueText(cues[i]) != "" && b == Render(cues[i])
  {
    KeptRendered(cues, Texts(cues), b);
  }

  /** The new file contents of `normalize_srt_inplace`; `None` when no cue
      kept text, in which case the file is left as it was. */
  function NormalizeCues(cues: seq<Cue>): (r: Option<string>)
    ensures r.None? <==> forall i :: 0 <= i < |cues| ==> CueText(cues[i]) == ""
    ensures r.Some? ==> r.value == Join(Blocks(cues), "\n")
  {
    var blocks := Blocks(cues);
    if |blocks| == 0 then None else Some(Join(blocks, "\n"))
  }

  /** A kept cue renders as its index, its timing and one text line. */
  lemma RenderShape(c: Cue)
    requires '\n' !in c.index && '\n' !in c.timing
    ensures Split(Render(c), '\n') == [c.index, c.timing, CueText(c), ""]
  {
    NoNewlineInMerged(c.text);
    BlockShape(c.index, c.timing, CueText(c));
  }

  lemma BlockShape(index: string, timing: string, text: string)
    requires '\n' !in index && '\n' !in timing && '\n' !in text
    ensures Split(RenderBlock(index, timing, text), '\n') == [index, timing, text, ""]
  {
    var parts := [index, timing, text, ""];
    assert Join(parts[2..], "\n") == text + "\n";
    assert Join(parts[1..], "\n") == timing + "\n" + (text + "\n");
    assert RenderBlock(index, timing, text) == Join(parts, "\n");
    SplitJoin(parts, '\n');
  }

  /** The merged text of a cue holds no line break: it is built from
      pieces of '\n'-split lines and single spaces. */
  lemma NoNewlineInMerged(text: string)
    ensures '\n' !in CueText(Cue("", "", text))
  {
    var lines := Split(text, '\n');
    var cl := Cleaned(lines);
    CleanedNoNewline(lines);
    if |lines| > 0 {
      MergeNoNewline(cl);
    }
  }

  lemma {:induction false} CleanedNoNewline(lines: seq<string>)
    requires forall i :: 0 <= i < |lines| ==> '\n' !in lines[i]
    ensures forall i :: 0 <= i < |Cleaned(lines)| ==> '\n' !in Cleaned(lines)[i]
    decreases |lines|
  {
    if |lines| > 0 {
      CleanedNoNewline(lines[1..]);
      var c := Strip(lines[0]);
      TrimKeepsChars(lines[0], IsSpace);
      assert Cleaned(lines) == if c != "" then [c] + Cleaned(lines[1..]) else Cleaned(lines[1..]);
      if c != "" {
        ConsFree(c, Cleaned(lines[1..]), '\n');
      }
    }
  }

  lemma ConsFree(c: string, rest: seq<string>, x: char)
    requires x !in c && forall i :: 0 <= i < |rest| ==> x !in rest[i]
    ensures forall i :: 0 <= i < |[c] + rest| ==> x !in ([c] + rest)[i]
  {
  }

  lemma {:induction false} MergeNoNewline(cl: seq<string>)
    requires AllNonEmpty(cl)
    requires forall i :: 0 <= i < |cl| ==> '\n' !in cl[i]
    ensures '\n' !in Merge(cl)
    decreases |cl|
  {
    if |cl| > 1 {
      MergeNoNewline(cl[..|cl| - 1]);
    }
  }
}
