/** yt-dlp format selectors: the block of `_execute_download` in tasks.py,
    and in service/tasks/downloader.py the direct selector built from
    pinned format ids, `build_adaptive_selector`, the merge-corruption
    fallback and `_is_merge_corruption`. Selectors are plain strings; the
    regular expressions `height<=(\d+)` and `height<=\??(\d+)` are written
    out as a left-to-right scan. */
module Selectors {

  import opened Options
  import opened Strings
  import RequestBuild

  const HeightTag := "height<="

  // -------------------------------------------------------------- scanning

  /** Where the digits of a match starting at `j` begin: `height<=`, then
      (when `optQ`) an optional `?`, then at least one digit. The optional
      `?` is tried first, as the greedy `\??` does. */
  function CapStart(q: string, j: int, optQ: bool): (r: Option<nat>)
    ensures r.Some? ==> OccursAt(q, HeightTag, j) && r.value < |q| && IsDigit(q[r.value])
    ensures r.Some? ==> r.value == j + |HeightTag| || (optQ && r.value == j + |HeightTag| + 1 && q[j + |HeightTag|] == '?')
  {
    if OccursAt(q, HeightTag, j) then
      var k := j + |HeightTag|;
      if optQ && k + 1 < |q| && q[k] == '?' && IsDigit(q[k + 1]) then Some(k + 1)
      else if k < |q| && IsDigit(q[k]) then Some(k)
      else None
    else None
  }

  /** `re.search` from position `i`: the digit group of the leftmost match. */
  function FindCap(q: string, i: nat, optQ: bool): (r: Option<string>)
    ensures r.Some? ==> IsNumeral(r.value)
    ensures r.Some? ==> exists j :: i <= j < |q| && CapStart(q, j, optQ).Some?
                                    && r.value == DigitPrefix(q[CapStart(q, j, optQ).value..])
                                    && forall k :: i <= k < j ==> CapStart(q, k, optQ).None?
    ensures r.None? ==> forall j :: i <= j < |q| ==> CapStart(q, j, optQ).None?
    decreases |q| - i
  {
    if i >= |q| then None
    else
      match CapStart(q, i, optQ)
      case Some(k) =>
        var d := DigitPrefix(q[k..]);
        assert d[0] == q[k];
        Some(d)
      case None => FindCap(q, i + 1, optQ)
  }

  /** `re.search(r"height<=(\d+)", q)`. */
  function HeightDigits(q: string): Option<string> {
    FindCap(q, 0, false)
  }

  /** `re.search(r"height<=\??(\d+)", selector)`. */
  function SelectorCap(selector: string): Option<string> {
    FindCap(selector, 0, true)
  }

  // ------------------------------------------------------------- selectors

  /** A quality holding both '[' and ']' is taken as a selector verbatim. */
  predicate Bracketed(q: string) {
    '[' in q && ']' in q
  }

  const AudioSelector := "bestaudio/best"
  const MergedDefault := "bv+ba/b"

  function VideoCapped(h: string): string {
    "bestvideo[height<=?" + h + "]/bestvideo"
  }

  function MergedCapped(h: string): string {
    "bv[height<=?" + h + "]+ba/best[height<=?" + h + "]/b"
  }

  /** The video-only table: every quality it does not name caps at 720. */
  function VideoPreset(q: string): (h: string)
    ensures h in {"4320", "2160", "1080", "640", "720"}
    ensures q !in {"best8k", "best4k", "best", "auto", "640p"} ==> h == "720"
  {
    if q == "best8k" then "4320"
    else if q == "best4k" then "2160"
    else if q == "best" || q == "auto" then "1080"
    else if q == "640p" then "640"
    else "720"
  }

  /** The merged table; `None` for a quality it does not name. */
  function MergedPreset(q: string): (h: Option<string>)
    ensures h.Some? <==> q in {"best8k", "best4k", "best", "auto", "fast", "640p"}
  {
    if q == "best8k" then Some("4320")
    else if q == "best4k" then Some("2160")
    else if q == "best" || q == "auto" then Some("1080")
    else if q == "fast" then Some("720")
    else if q == "640p" then Some("640")
    else None
  }

  /** The selector `_execute_download` in tasks.py builds. In video-only
      mode a `height<=N` quality is not read and falls to the 720 cap; in
      merged mode N is read as an integer, so leading zeros go. */
  function LegacySelector(q: string, mode: string): (r: string)
    ensures Bracketed(q) ==> r == q
    ensures !Bracketed(q) && mode == "audio_only" ==> r == AudioSelector
    ensures !Bracketed(q) && mode == "video_only" ==> r == VideoCapped(VideoPreset(q))
  {
    if Bracketed(q) then q
    else if mode == "audio_only" then AudioSelector
    else if mode == "video_only" then VideoCapped(VideoPreset(q))
    else
      match MergedPreset(q)
      case Some(h) => MergedCapped(h)
      case None =>
        match HeightDigits(q)
        case Some(d) => MergedCapped(NatToString(ParseNat(d)))
        case None => MergedDefault
  }

  /** `build_adaptive_selector` in downloader.py: bracket pass-through,
      then a `height<=N` quality in every mode (N kept as written), then the
      fixed tables. */
  function AdaptiveSelector(q: string, mode: string): (r: string)
    ensures Bracketed(q) ==> r == q
    ensures !Bracketed(q) && mode == "audio_only" ==> r == AudioSelector
  {
    if Bracketed(q) then q
    else if Contains(q, HeightTag) && HeightDigits(q).Some? then
      var h := HeightDigits(q).value;
      if mode == "audio_only" then AudioSelector
      else if mode == "video_only" then VideoCapped(h)
      else MergedCapped(h)
    else if mode == "audio_only" then AudioSelector
    else if mode == "video_only" then VideoCapped(VideoPreset(q))
    else
      match MergedPreset(q)
      case Some(h) => MergedCapped(h)
      case None => MergedDefault
  }

  /** The selector pinned to the format ids the client sent (`""` for an
      id not sent); `None` when the mode's ids are missing. */
  function DirectSelector(video: string, audio: string, mode: string): (r: Option<string>)
    ensures r.Some? ==> r.value != ""
    ensures r.Some? <==> (mode == "merged" && video != "" && audio != "")
                         || (mode == "video_only" && video != "")
                         || (mode == "audio_only" && audio != "")
    ensures mode == "merged" && r.Some? ==> r.value == video + "+" + audio
    ensures mode == "video_only" && r.Some? ==> r.value == video
    ensures mode == "audio_only" && r.Some? ==> r.value == audio
  {
    if video != "" && audio != "" && mode == "merged" then Some(video + "+" + audio)
    else if video != "" && mode == "video_only" then Some(video)
    else if audio != "" && mode == "audio_only" then Some(audio)
    else None
  }

  /** The first selector tried, and the adaptive one kept for a retry
      (only when the first was pinned). */
  function FirstSelectors(video: string, audio: string, mode: string, q: string): (r: (string, Option<string>))
    ensures DirectSelector(video, audio, mode).None? ==> r == (AdaptiveSelector(q, mode), None)
    ensures DirectSelector(video, audio, mode).Some? ==>
              r == (DirectSelector(video, audio, mode).value, Some(AdaptiveSelector(q, mode)))
  {
    match DirectSelector(video, audio, mode)
    case Some(d) => (d, Some(AdaptiveSelector(q, mode)))
    case None => (AdaptiveSelector(q, mode), None)
  }

  // ------------------------------------------------ merge-corruption retry

  const UncappedFallback := "bv[ext=mp4]+ba[ext=m4a]/best/b"

  function CappedFallback(cap: string): string {
    "bv[ext=mp4][height<=?" + cap + "]+ba[ext=m4a]/best[height<=?" + cap + "]/b"
  }

  /** The conservative mp4/m4a selector retried after a corrupt merge,
      keeping the height cap of the selector that failed. */
  function MergeFallback(selector: string): (r: string)
    ensures SelectorCap(selector).Some? ==> r == CappedFallback(SelectorCap(selector).value)
    ensures SelectorCap(selector).None? ==> r == UncappedFallback
  {
    match SelectorCap(selector)
    case Some(cap) => CappedFallback(cap)
    case None => UncappedFallback
  }

  const CorruptionWindow := 60

  /** `lines[-60:]`. */
  function LastLines(lines: seq<string>, n: nat): (r: seq<string>)
    ensures |r| == if |lines| < n then |lines| else n
    ensures r == lines[|lines| - |r|..]
  {
    if |lines| <= n then lines else lines[|lines| - n..]
  }

  /** `_is_merge_corruption`: ffmpeg's complaints about its input in the
      last 60 output lines. */
  function IsMergeCorruption(lines: seq<string>): (r: bool)
    ensures |lines| == 0 ==> !r
  {
    if |lines| == 0 then false
    else
      var txt := Lower(Join(LastLines(lines, CorruptionWindow), "\n"));
      Contains(txt, "invalid data found when processing input") || Contains(txt, "error opening input files")
  }

  // ------------------------------------------------------------ properties

  /** Scanning skips positions that cannot start `height<=`. */
  lemma {:induction false} FindCapSkip(q: string, i: nat, j: nat, optQ: bool)
    requires i <= j <= |q|
    requires forall k :: i <= k < j ==> q[k] != 'h'
    ensures FindCap(q, i, optQ) == FindCap(q, j, optQ)
    decreases j - i
  {
    if i < j {
      assert !OccursAt(q, HeightTag, i) by {
        assert q[i] != HeightTag[0];
      }
      FindCapSkip(q, i + 1, j, optQ);
    }
  }

  /** A match at `j` with no 'h' before it is the leftmost one. */
  lemma FindCapFirst(q: string, j: nat, optQ: bool)
    requires j < |q| && CapStart(q, j, optQ).Some?
    requires forall k :: 0 <= k < j ==> q[k] != 'h'
    ensures FindCap(q, 0, optQ) == Some(DigitPrefix(q[CapStart(q, j, optQ).value..]))
  {
    FindCapSkip(q, 0, j, optQ);
  }

  /** Where `height<=` followed by digits starts, the digits start right
      after it, or one later past a `?` when `optQ`. */
  lemma CapStartAt(q: string, j: nat, mark: string, optQ: bool)
    requires mark == HeightTag || (optQ && mark == HeightTag + "?")
    requires j + |mark| < |q| && q[j..j + |mark|] == mark && IsDigit(q[j + |mark|])
    ensures CapStart(q, j, optQ) == Some(j + |mark|)
  {
    assert q[j..j + |HeightTag|] == q[j..j + |mark|][..|HeightTag|];
    assert q[j..j + |mark|][..|HeightTag|] == HeightTag;
    if mark != HeightTag {
      assert q[j + |HeightTag|] == q[j..j + |mark|][|HeightTag|];
    }
  }

  /** The scan finds the digits right after a first `height<=` (or
      `height<=?` when `optQ`) preceded by no 'h'. */
  lemma FindCapAfter(prefix: string, mark: string, h: string, rest: string, optQ: bool)
    requires 'h' !in prefix && IsNumeral(h)
    requires mark == HeightTag || (optQ && mark == HeightTag + "?")
    requires |rest| > 0 ==> !IsDigit(rest[0])
    ensures FindCap(prefix + mark + h + rest, 0, optQ) == Some(h)
  {
    var q := prefix + mark + h + rest;
    var j := |prefix|;
    MarkedLayout(prefix, mark, h, rest);
    CapStartAt(q, j, mark, optQ);
    FindCapFirst(q, j, optQ);
    DigitPrefixOfDigits(h, rest);
  }

  /** Where the pieces of `prefix + mark + h + rest` sit. */
  lemma MarkedLayout(prefix: string, mark: string, h: string, rest: string)
    requires 'h' !in prefix && IsNumeral(h)
    ensures var q := prefix + mark + h + rest;
            var k := |prefix| + |mark|;
            && k < |q| && q[|prefix|..k] == mark && IsDigit(q[k]) && q[k..] == h + rest
            && forall i :: 0 <= i < |prefix| ==> q[i] != 'h'
  {
    var q := prefix + mark + h + rest;
    var j := |prefix|;
    var k := j + |mark|;
    assert q[j..k] == mark;
    assert q[k..] == h + rest;
    assert q[k] == h[0];
    forall i | 0 <= i < j ensures q[i] != 'h' {
      assert q[i] == prefix[i];
    }
  }

  /** A height picked on the page reaches yt-dlp as that height: the
      client sends `height<=N`, the adaptive selector caps at N in video
      and merged modes, and tasks.py caps at N only in merged mode. */
  lemma ClientHeightReachesSelector(n: nat)
    ensures var q := RequestBuild.MapQuality(NatToString(n));
            && q == HeightTag + NatToString(n)
            && AdaptiveSelector(q, "merged") == MergedCapped(NatToString(n))
            && AdaptiveSelector(q, "video_only") == VideoCapped(NatToString(n))
            && AdaptiveSelector(q, "audio_only") == AudioSelector
            && LegacySelector(q, "merged") == MergedCapped(NatToString(n))
            && LegacySelector(q, "video_only") == VideoCapped("720")
  {
    HeightQueryFacts(NatToString(n));
    ParseNatToString(n);
  }

  /** What the selector builders read off a `height<=N` quality. */
  lemma HeightQueryFacts(h: string)
    requires IsNumeral(h)
    ensures var q := HeightTag + h;
            && !Bracketed(q) && Contains(q, HeightTag) && HeightDigits(q) == Some(h)
            && MergedPreset(q).None? && VideoPreset(q) == "720"
  {
    HeightFound(h);
    HeightNotBracketed(h);
    HeightNotPreset(h);
  }

  lemma HeightFound(h: string)
    requires IsNumeral(h)
    ensures Contains(HeightTag + h, HeightTag) && HeightDigits(HeightTag + h) == Some(h)
  {
    var q := HeightTag + h;
    assert q == "" + HeightTag + h + "";
    FindCapAfter("", HeightTag, h, "", false);
    assert OccursAt(q, HeightTag, 0);
  }

  lemma HeightNotBracketed(h: string)
    requires IsNumeral(h)
    ensures !Bracketed(HeightTag + h)
  {
    var q := HeightTag + h;
    forall k | 0 <= k < |q| ensures q[k] != '[' {
      if k >= |HeightTag| { assert q[k] == h[k - |HeightTag|]; }
    }
  }

  lemma HeightNotPreset(h: string)
    ensures MergedPreset(HeightTag + h).None? && VideoPreset(HeightTag + h) == "720"
  {
    var q := HeightTag + h;
    assert q[0] == 'h';
  }

  /** A corrupt merge retried from a capped merged selector keeps the
      cap. */
  lemma FallbackKeepsCap(h: string)
    requires IsNumeral(h)
    ensures MergeFallback(MergedCapped(h)) == CappedFallback(h)
  {
    var rest := "]+ba/best[height<=?" + h + "]/b";
    var mark := HeightTag + "?";
    assert MergedCapped(h) == "bv[" + mark + h + rest;
    FindCapAfter("bv[", mark, h, rest, true);
  }

  /** Retried from the uncapped default, it stays uncapped. */
  lemma FallbackOfDefault()
    ensures MergeFallback(MergedDefault) == UncappedFallback
  {
    FindCapSkip(MergedDefault, 0, |MergedDefault|, true);
  }

  /** Only the last 60 lines count: earlier output changes nothing. */
  lemma CorruptionLooksAtTail(earlier: seq<string>, lines: seq<string>)
    requires |lines| >= CorruptionWindow
    ensures IsMergeCorruption(earlier + lines) == IsMergeCorruption(lines)
  {
    var all := earlier + lines;
    assert LastLines(all, CorruptionWindow) == LastLines(lines, CorruptionWindow) by {
      assert all[|all| - CorruptionWindow..] == lines[|lines| - CorruptionWindow..];
    }
  }

  /** A joined list ends with its last part. */
  lemma {:induction false} JoinEndsWithLast(parts: seq<string>, sep: string)
    requires |parts| >= 1
    ensures var j := Join(parts, sep);
            var last := parts[|parts| - 1];
            |last| <= |j| && j == j[..|j| - |last|] + last
  {
    if |parts| > 1 {
      JoinEndsWithLast(parts[1..], sep);
      assert parts[1..][|parts| - 2] == parts[|parts| - 1];
    }
  }

  lemma LowerConcat(a: string, b: string)
    ensures Lower(a + b) == Lower(a) + Lower(b)
  {
  }

  /** A last line reporting unreadable input marks the merge corrupt,
      whatever its letter case. */
  lemma CorruptionInLastLine(lines: seq<string>, phrase: string)
    requires phrase == "invalid data found when processing input" || phrase == "error opening input files"
    requires |lines| > 0 && Contains(Lower(lines[|lines| - 1]), phrase)
    ensures IsMergeCorruption(lines)
  {
    var tail := LastLines(lines, CorruptionWindow);
    assert tail[|tail| - 1] == lines[|lines| - 1];
    JoinEndsWithLast(tail, "\n");
    var a :| Join(tail, "\n") == a + tail[|tail| - 1];
    LowerConcat(a, tail[|tail| - 1]);
    ContainsInConcat(Lower(a), Lower(lines[|lines| - 1]), "", phrase);
    assert Lower(a) + Lower(lines[|lines| - 1]) + "" == Lower(Join(tail, "\n"));
  }
}
