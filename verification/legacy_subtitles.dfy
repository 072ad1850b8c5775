/** The cue merger and SRT rewriter kept in tasks.py. A cue's lines lose
    their HTML tags and surrounding whitespace; dialogue (a line opening
    with a dash) is joined with " — "; other text is concatenated directly
    when at least half of its visible characters are CJK and with single
    spaces otherwise. A file is rewritten block by block: a block with an
    index line, a timing line and text becomes exactly three lines, any
    other block is kept trimmed, and the file ends in one newline. */
module LegacySubtitles {

  import opened Strings
  import opened LegacyText
  import SubtitleMerge

  // -------------------------------------------------------------- cleaning

  /** `re.sub(r"<[^>]+>", "", ln).strip()`. */
  function CleanLine(ln: string): string {
    Strip(StripTags(ln))
  }

  /** Not empty, and neither end is whitespace. */
  predicate Visible(s: string) {
    s != "" && !IsSpace(s[0]) && !IsSpace(s[|s| - 1])
  }

  /** The cleaned lines that are not empty, in order. */
  function CleanLines(lines: seq<string>): (cl: seq<string>)
    ensures |cl| <= |lines|
    ensures forall i :: 0 <= i < |cl| ==> Visible(cl[i])
  {
    if |lines| == 0 then []
    else
      var rest := CleanLines(lines[1..]);
      var c := CleanLine(lines[0]);
      if c != "" then ConsVisible(c, rest); [c] + rest else rest
  }

  lemma ConsVisible(c: string, rest: seq<string>)
    requires Visible(c) && forall i :: 0 <= i < |rest| ==> Visible(rest[i])
    ensures forall i :: 0 <= i < |[c] + rest| ==> Visible(([c] + rest)[i])
  {
  }

  /** No line survives cleaning exactly when every line is blank once its
      tags are gone. */
  lemma {:induction false} CleanLinesEmpty(lines: seq<string>)
    ensures |CleanLines(lines)| == 0 <==> forall i :: 0 <= i < |lines| ==> CleanLine(lines[i]) == ""
    decreases |lines|
  {
    if |lines| > 0 {
      CleanLinesEmpty(lines[1..]);
      BlankCons(lines);
      var c := CleanLine(lines[0]);
      assert CleanLines(lines) == if c != "" then [c] + CleanLines(lines[1..]) else CleanLines(lines[1..]);
    }
  }

  predicate Blank(lines: seq<string>) {
    forall i :: 0 <= i < |lines| ==> CleanLine(lines[i]) == ""
  }

  lemma BlankCons(lines: seq<string>)
    requires |lines| > 0
    ensures Blank(lines) <==> CleanLine(lines[0]) == "" && Blank(lines[1..])
  {
    assert forall i :: 1 <= i < |lines| ==> lines[i] == lines[1..][i - 1];
  }

  // -------------------------------------------------------------- dialogue

  /** '-', '–' or '—'. */
  predicate IsDash(c: char) {
    c == '-' || c == '–' || c == '—'
  }

  /** `re.match(r"^\s*[-–—]\s+", ln)`. */
  predicate OpensDialog(ln: string) {
    var t := TrimStart(ln, IsSpace);
    |t| >= 2 && IsDash(t[0]) && IsSpace(t[1])
  }

  predicate HasDialog(cl: seq<string>) {
    exists i :: 0 <= i < |cl| && OpensDialog(cl[i])
  }

  /** `re.sub(r"^\s*[-–—]\s*", "", ln)`: a leading dash and the whitespace
      around it go; a line without one is unchanged. */
  function DropDash(ln: string): (r: string)
    ensures |r| <= |ln|
  {
    var t := TrimStart(ln, IsSpace);
    if |t| >= 1 && IsDash(t[0]) then TrimStart(t[1..], IsSpace) else ln
  }

  /** The dash-free lines that are not empty. */
  function DialogParts(cl: seq<string>): (ps: seq<string>)
    ensures |ps| <= |cl|
    ensures forall i :: 0 <= i < |ps| ==> ps[i] != ""
  {
    if |cl| == 0 then []
    else
      var rest := DialogParts(cl[1..]);
      if DropDash(cl[0]) != "" then [DropDash(cl[0])] + rest else rest
  }

  const DialogJoiner := " — "

  function Dialog(cl: seq<string>): string {
    Strip(Collapse(Join(DialogParts(cl), DialogJoiner)))
  }

  // ------------------------------------------------------------------ prose

  function NonSpaceCount(s: string): nat {
    if s == "" then 0 else (if IsSpace(s[0]) then 0 else 1) + NonSpaceCount(s[1..])
  }

  function CjkCount(s: string): nat {
    if s == "" then 0 else (if !IsSpace(s[0]) && SubtitleMerge.IsCjk(s[0]) then 1 else 0) + CjkCount(s[1..])
  }

  /** `cjk_cnt / max(1, len(nonspace)) >= 0.5`, cleared of the division. */
  predicate MostlyCjk(sample: string) {
    2 * CjkCount(sample) >= (if NonSpaceCount(sample) < 1 then 1 else NonSpaceCount(sample))
  }

  /** The separator: none for CJK text, one space otherwise. */
  function Separator(cl: seq<string>): (sep: string)
    ensures sep == "" || sep == " "
  {
    if MostlyCjk(Join(cl, "")) then "" else " "
  }

  function Prose(cl: seq<string>): string {
    var sep := Separator(cl);
    var joined := Join(cl, sep);
    Strip(Unspace(if sep == " " then Collapse(joined) else joined))
  }

  /** `_merge_lines_to_single(lines)` of tasks.py. */
  function LegacyMerge(lines: seq<string>): (r: string)
    ensures r != "" ==> !IsSpace(r[0]) && !IsSpace(r[|r| - 1])
  {
    var cl := CleanLines(lines);
    if |cl| == 0 then ""
    else if HasDialog(cl) then Dialog(cl)
    else Prose(cl)
  }

  // ---------------------------------------------------- merge properties

  lemma JoinFirst(parts: seq<string>, sep: string)
    requires |parts| > 0 && parts[0] != ""
    ensures Join(parts, sep) != "" && Join(parts, sep)[0] == parts[0][0]
  {
  }

  /** A dialogue line keeps text after its dash. */
  lemma DialogLineKeepsText(ln: string)
    requires OpensDialog(ln) && ln != "" && !IsSpace(ln[|ln| - 1])
    ensures DropDash(ln) != "" && !IsSpace(DropDash(ln)[0])
  {
    var t := TrimStart(ln, IsSpace);
    assert t[|t| - 1] == ln[|ln| - 1];
    var u := t[1..];
    if TrimStart(u, IsSpace) == "" {
      TrimStartDropsOnly(u, IsSpace, |u| - 1);
    }
  }

  /** A cleaned line that is not dialogue keeps its first character. */
  lemma DropDashFirst(ln: string)
    requires ln != "" && !IsSpace(ln[0])
    ensures DropDash(ln) != "" ==> !IsSpace(DropDash(ln)[0])
  {
  }

  lemma {:induction false} DialogPartsStart(cl: seq<string>)
    requires forall i :: 0 <= i < |cl| ==> Visible(cl[i])
    requires HasDialog(cl)
    ensures |DialogParts(cl)| > 0 && !IsSpace(DialogParts(cl)[0][0])
    decreases |cl|
  {
    DropDashFirst(cl[0]);
    if OpensDialog(cl[0]) {
      DialogLineKeepsText(cl[0]);
    } else if DropDash(cl[0]) == "" {
      var i :| 0 <= i < |cl| && OpensDialog(cl[i]);
      assert cl[1..][i - 1] == cl[i];
      DialogPartsStart(cl[1..]);
    }
  }

  /** The merge is empty exactly when every line is blank once its tags
      are gone; otherwise it starts with a visible character. */
  lemma LegacyMergeEmpty(lines: seq<string>)
    ensures LegacyMerge(lines) == "" <==> forall i :: 0 <= i < |lines| ==> CleanLine(lines[i]) == ""
  {
    var cl := CleanLines(lines);
    CleanLinesEmpty(lines);
    if |cl| > 0 {
      var pre: string;
      if HasDialog(cl) {
        DialogPartsStart(cl);
        JoinFirst(DialogParts(cl), DialogJoiner);
        pre := Collapse(Join(DialogParts(cl), DialogJoiner));
      } else {
        JoinFirst(cl, Separator(cl));
        var joined := Join(cl, Separator(cl));
        pre := Unspace(if Separator(cl) == " " then Collapse(joined) else joined);
      }
      assert !IsSpace(pre[0]);
      StripEmptyIffBlank(pre);
    }
  }

  // ------------------------------------------------------- branch shapes

  lemma {:induction false} JoinNoSpace(parts: seq<string>, sep: string)
    requires NoSpace(sep) && forall i :: 0 <= i < |parts| ==> NoSpace(parts[i])
    ensures NoSpace(Join(parts, sep))
    decreases |parts|
  {
    if |parts| > 1 {
      JoinNoSpace(parts[1..], sep);
      var rest := Join(parts[1..], sep);
      var r := parts[0] + sep + rest;
      forall i | 0 <= i < |r| ensures !IsSpace(r[i]) {
        if i >= |parts[0]| + |sep| {
          assert r[i] == rest[i - |parts[0]| - |sep|];
        } else if i >= |parts[0]| {
          assert r[i] == sep[i - |parts[0]|];
        } else {
          assert r[i] == parts[0][i];
        }
      }
    }
  }

  lemma {:induction false} JoinEnds(parts: seq<string>, sep: string)
    requires |parts| > 0 && forall i :: 0 <= i < |parts| ==> parts[i] != ""
    ensures var r := Join(parts, sep);
            r != "" && r[|r| - 1] == parts[|parts| - 1][|parts[|parts| - 1]| - 1]
    decreases |parts|
  {
    if |parts| > 1 {
      JoinEnds(parts[1..], sep);
    }
  }

  lemma UnspaceOfNoSpace(s: string)
    requires NoSpace(s)
    ensures Unspace(s) == s
  {
    UnspaceOfTight(s);
  }

  /** Stripping text whose ends are visible changes nothing. */
  lemma StripOfVisibleEnds(s: string)
    requires s != "" && !IsSpace(s[0]) && !IsSpace(s[|s| - 1])
    ensures Strip(s) == s
  {
    TrimOfTrimmed(s, IsSpace);
  }

  /** Mostly-CJK lines without whitespace are concatenated as they are. */
  lemma CjkLinesConcatenated(lines: seq<string>)
    requires var cl := CleanLines(lines);
             |cl| > 0 && !HasDialog(cl) && MostlyCjk(Join(cl, ""))
             && forall i :: 0 <= i < |cl| ==> NoSpace(cl[i])
    ensures LegacyMerge(lines) == Join(CleanLines(lines), "")
  {
    var cl := CleanLines(lines);
    assert LegacyMerge(lines) == Prose(cl);
    ProseConcatenated(cl);
  }

  lemma ProseConcatenated(cl: seq<string>)
    requires |cl| > 0 && MostlyCjk(Join(cl, ""))
    requires forall i :: 0 <= i < |cl| ==> Visible(cl[i]) && NoSpace(cl[i])
    ensures Prose(cl) == Join(cl, "")
  {
    var joined := Join(cl, "");
    JoinNoSpace(cl, "");
    UnspaceOfNoSpace(joined);
    JoinFirst(cl, "");
    JoinEnds(cl, "");
    StripOfVisibleEnds(joined);
  }

  /** Joining visible words with a single-spaced separator that starts and
      ends with a space gives single-spaced text. */
  lemma {:induction false} JoinSingleSpaced(parts: seq<string>, sep: string)
    requires |parts| > 0 && SingleSpaced(sep) && sep != "" && sep[0] == ' ' && sep[|sep| - 1] == ' '
    requires forall i :: 0 <= i < |parts| ==> parts[i] != "" && NoSpace(parts[i])
    ensures SingleSpaced(Join(parts, sep))
    decreases |parts|
  {
    if |parts| > 1 {
      JoinSingleSpaced(parts[1..], sep);
      var rest := Join(parts[1..], sep);
      JoinFirst(parts[1..], sep);
      var a := parts[0];
      var r := a + sep + rest;
      forall i | 0 <= i < |r| && IsSpace(r[i]) ensures r[i] == ' ' && (i + 1 < |r| ==> !IsSpace(r[i + 1])) {
        if i >= |a| + |sep| {
          assert r[i] == rest[i - |a| - |sep|];
          assert i + 1 < |r| ==> r[i + 1] == rest[i + 1 - |a| - |sep|];
        } else if i >= |a| {
          assert r[i] == sep[i - |a|];
          if i + 1 < |a| + |sep| {
            assert r[i + 1] == sep[i + 1 - |a|];
          } else {
            assert r[i + 1] == rest[0];
          }
        }
      }
    } else {
      assert Join(parts, sep) == parts[0];
    }
  }

  lemma {:induction false} JoinTight(parts: seq<string>)
    requires |parts| > 0
    requires forall i :: 0 <= i < |parts| ==> parts[i] != "" && NoSpace(parts[i]) && !Punct(parts[i][0])
    ensures TightPunct(Join(parts, " "))
    decreases |parts|
  {
    if |parts| > 1 {
      JoinTight(parts[1..]);
      var rest := Join(parts[1..], " ");
      JoinFirst(parts[1..], " ");
      var a := parts[0];
      var r := a + " " + rest;
      forall i | 0 <= i < |r| - 1 && IsSpace(r[i]) ensures !Punct(r[i + 1]) {
        if i > |a| {
          assert r[i] == rest[i - |a| - 1] && r[i + 1] == rest[i - |a|];
        } else if i == |a| {
          assert r[i + 1] == rest[0];
        }
      }
    } else {
      assert Join(parts, " ") == parts[0];
    }
  }

  /** Latin lines without inner whitespace, none opening with
      punctuation, are joined with single spaces. */
  lemma LatinLinesSpaced(lines: seq<string>)
    requires var cl := CleanLines(lines);
             |cl| > 0 && !HasDialog(cl) && !MostlyCjk(Join(cl, ""))
             && forall i :: 0 <= i < |cl| ==> NoSpace(cl[i]) && !Punct(cl[i][0])
    ensures LegacyMerge(lines) == Join(CleanLines(lines), " ")
  {
    var cl := CleanLines(lines);
    assert LegacyMerge(lines) == Prose(cl);
    ProseSpaced(cl);
  }

  lemma ProseSpaced(cl: seq<string>)
    requires |cl| > 0 && !MostlyCjk(Join(cl, ""))
    requires forall i :: 0 <= i < |cl| ==> Visible(cl[i]) && NoSpace(cl[i]) && !Punct(cl[i][0])
    ensures Prose(cl) == Join(cl, " ")
  {
    assert Separator(cl) == " ";
    SpacedJoinFixed(cl);
  }

  /** Words joined by single spaces are a fixed point of collapsing,
      unspacing and stripping. */
  lemma SpacedJoinFixed(cl: seq<string>)
    requires |cl| > 0
    requires forall i :: 0 <= i < |cl| ==> Visible(cl[i]) && NoSpace(cl[i]) && !Punct(cl[i][0])
    ensures Strip(Unspace(Collapse(Join(cl, " ")))) == Join(cl, " ")
  {
    var joined := Join(cl, " ");
    JoinSingleSpaced(cl, " ");
    CollapseOfSingleSpaced(joined);
    JoinTight(cl);
    UnspaceOfTight(joined);
    JoinFirst(cl, " ");
    JoinEnds(cl, " ");
    StripOfVisibleEnds(joined);
  }

  lemma DialogOfWords(cl: seq<string>)
    requires forall i :: 0 <= i < |cl| ==> Visible(cl[i])
    requires HasDialog(cl) && forall i :: 0 <= i < |DialogParts(cl)| ==> NoSpace(DialogParts(cl)[i])
    ensures Dialog(cl) == Join(DialogParts(cl), DialogJoiner)
  {
    var ps := DialogParts(cl);
    DialogPartsStart(cl);
    JoinerSpaced();
    SpacedJoinSettled(ps, DialogJoiner);
  }

  /** Single-word parts joined by a space-bounded separator are already
      collapsed and stripped. */
  lemma SpacedJoinSettled(ps: seq<string>, sep: string)
    requires |ps| > 0 && ps[0] != "" && !IsSpace(ps[0][0])
    requires SingleSpaced(sep) && sep != "" && sep[0] == ' ' && sep[|sep| - 1] == ' '
    requires forall i :: 0 <= i < |ps| ==> ps[i] != "" && NoSpace(ps[i])
    ensures Strip(Collapse(Join(ps, sep))) == Join(ps, sep)
  {
    var joined := Join(ps, sep);
    JoinSingleSpaced(ps, sep);
    CollapseOfSingleSpaced(joined);
    JoinFirst(ps, sep);
    JoinEnds(ps, sep);
    StripOfVisibleEnds(joined);
  }

  lemma JoinerSpaced()
    ensures SingleSpaced(DialogJoiner) && DialogJoiner[0] == ' ' && DialogJoiner[|DialogJoiner| - 1] == ' '
  {
    assert DialogJoiner[1] == '—' && !IsSpace('—');
  }

  /** Dialogue whose lines hold one word after the dash is joined with
      " — ". */
  lemma DialogJoined(lines: seq<string>)
    requires var cl := CleanLines(lines);
             |cl| > 0 && HasDialog(cl)
             && forall i :: 0 <= i < |DialogParts(cl)| ==> NoSpace(DialogParts(cl)[i])
    ensures LegacyMerge(lines) == Join(DialogParts(CleanLines(lines)), DialogJoiner)
  {
    DialogOfWords(CleanLines(lines));
  }

  // --------------------------------------------------------- line breaks

  /** The merge never produces a line feed from lines that hold none. */
  lemma {:induction false} CleanLinesFree(lines: seq<string>, x: char)
    requires forall i :: 0 <= i < |lines| ==> x !in lines[i]
    ensures forall i :: 0 <= i < |CleanLines(lines)| ==> x !in CleanLines(lines)[i]
    decreases |lines|
  {
    if |lines| > 0 {
      CleanLinesFree(lines[1..], x);
      StripTagsFree(lines[0], x);
      TrimKeepsChars(StripTags(lines[0]), IsSpace);
    }
  }

  lemma {:induction false} JoinFree(parts: seq<string>, sep: string, x: char)
    requires x !in sep && forall i :: 0 <= i < |parts| ==> x !in parts[i]
    ensures x !in Join(parts, sep)
    decreases |parts|
  {
    if |parts| > 1 {
      JoinFree(parts[1..], sep, x);
    }
  }

  lemma DropDashFree(ln: string, x: char)
    requires x !in ln
    ensures x !in DropDash(ln)
  {
    var t := TrimStart(ln, IsSpace);
    TrimStartFree(ln, x);
    if |t| >= 1 {
      assert forall c :: c in t[1..] ==> c in t;
      TrimStartFree(t[1..], x);
    }
  }

  lemma {:induction false} DialogPartsFree(cl: seq<string>, x: char)
    requires forall i :: 0 <= i < |cl| ==> x !in cl[i]
    ensures forall i :: 0 <= i < |DialogParts(cl)| ==> x !in DialogParts(cl)[i]
    decreases |cl|
  {
    if |cl| > 0 {
      assert forall i :: 0 <= i < |cl[1..]| ==> cl[1..][i] == cl[i + 1];
      DialogPartsFree(cl[1..], x);
      DropDashFree(cl[0], x);
      var d := DropDash(cl[0]);
      var rest := DialogParts(cl[1..]);
      if d != "" {
        assert DialogParts(cl) == [d] + rest;
        PartsFreeCons(d, rest, x);
      }
    }
  }

  lemma PartsFreeCons(d: string, rest: seq<string>, x: char)
    requires x !in d && forall i :: 0 <= i < |rest| ==> x !in rest[i]
    ensures forall i :: 0 <= i < |[d] + rest| ==> x !in ([d] + rest)[i]
  {
  }

  lemma LegacyMergeNoNewline(lines: seq<string>)
    requires forall i :: 0 <= i < |lines| ==> '\n' !in lines[i]
    ensures '\n' !in LegacyMerge(lines)
  {
    var cl := CleanLines(lines);
    CleanLinesFree(lines, '\n');
    if |cl| > 0 {
      if HasDialog(cl) {
        DialogNoNewline(cl);
      } else {
        ProseNoNewline(cl);
      }
    }
  }

  lemma DialogNoNewline(cl: seq<string>)
    requires forall i :: 0 <= i < |cl| ==> '\n' !in cl[i]
    ensures '\n' !in Dialog(cl)
  {
    DialogPartsFree(cl, '\n');
    var joined := Join(DialogParts(cl), DialogJoiner);
    JoinFree(DialogParts(cl), DialogJoiner, '\n');
    CollapseFree(joined, '\n');
    TrimKeepsChars(Collapse(joined), IsSpace);
  }

  lemma ProseNoNewline(cl: seq<string>)
    requires forall i :: 0 <= i < |cl| ==> '\n' !in cl[i]
    ensures '\n' !in Prose(cl)
  {
    var sep := Separator(cl);
    JoinFree(cl, sep, '\n');
    var joined := Join(cl, sep);
    var pre := if sep == " " then Collapse(joined) else joined;
    if sep == " " {
      CollapseFree(joined, '\n');
    }
    UnspaceFree(pre, '\n');
    TrimKeepsChars(Unspace(pre), IsSpace);
  }
}
