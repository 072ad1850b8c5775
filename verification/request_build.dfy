/** How the client turns the page into a download request (`downloadMedia`
    in static/main.js): the mode radio becomes a backend mode, the checked
    quality becomes a backend quality, a pair choice pins its format ids,
    and the fast-start toggle forwards a minimal copy of the probed info.
    Also the duration text shown with the probed info (`formatDuration`). */
module RequestBuild {

  import opened Options
  import opened Strings
  import opened LogSink
  import QualityOptions

  // ----------------------------------------------------------- quality

  /** `mapQualityForBackend`: the radio value as the backend reads it. */
  function MapQuality(raw: string): (q: string)
    ensures q != ""
    ensures raw == "" ==> q == "best"
    ensures IsNumeral(raw) ==> q == "height<=" + raw
  {
    if raw == "" then "best"
    else if IsNumeral(raw) then "height<=" + raw
    else
      var v := Lower(raw);
      if v == "4k" then "best4k" else if v == "8k" then "best8k" else v
  }

  /** Away from the two special cases, the value is only lower-cased. */
  lemma MapQualityLowers(raw: string)
    requires raw != "" && !IsNumeral(raw) && Lower(raw) != "4k" && Lower(raw) != "8k"
    ensures MapQuality(raw) == Lower(raw) && NoUpper(MapQuality(raw))
  {
    LowerIdempotent(raw);
  }

  /** "4k" and "8k" in any letter case select the fixed presets. */
  lemma MapQualityPresets(raw: string)
    requires raw in {"4k", "4K", "8k", "8K"}
    ensures MapQuality(raw) == if raw[0] == '4' then "best4k" else "best8k"
  {
    assert !IsDigit(raw[1]);
  }

  /** Mapping a mapped value again changes nothing. */
  lemma MapQualityIdempotent(raw: string)
    ensures MapQuality(MapQuality(raw)) == MapQuality(raw)
  {
    var q := MapQuality(raw);
    if raw == "" {
      MapQualityFixed("best");
    } else if IsNumeral(raw) {
      assert !IsDigit(q[0]);
      forall i | 0 <= i < |q| ensures !IsUpperAscii(q[i]) {
        if i >= 8 {
          assert q[i] == raw[i - 8];
        }
      }
      MapQualityFixed(q);
    } else {
      var v := Lower(raw);
      LowerIdempotent(raw);
      if v == "4k" {
        MapQualityFixed("best4k");
      } else if v == "8k" {
        MapQualityFixed("best8k");
      } else {
        var i :| 0 <= i < |raw| && !IsDigit(raw[i]);
        assert !IsDigit(v[i]);
        MapQualityFixed(v);
      }
    }
  }

  /** A lower-case value that is not a number nor "4k"/"8k" maps to itself. */
  lemma MapQualityFixed(q: string)
    requires q != "" && !IsNumeral(q) && NoUpper(q) && q != "4k" && q != "8k"
    ensures MapQuality(q) == q
  {
    LowerOfNoUpper(q);
  }

  // -------------------------------------------------------------- mode

  /** The backend mode for the mode radio. */
  function ModeFor(radio: string): (mode: string)
    ensures mode in {"video_only", "audio_only", "thumbnail_only", "merged"}
    ensures mode != "merged" <==> radio in {"video", "audio", "thumbnail"}
    ensures mode == "video_only" <==> radio == "video"
    ensures mode == "audio_only" <==> radio == "audio"
  {
    if radio == "video" then "video_only"
    else if radio == "audio" then "audio_only"
    else if radio == "thumbnail" then "thumbnail_only"
    else "merged"
  }

  // ---------------------------------------------------------- duration

  /** A number below 100 with at least two digits, as `padStart(2, '0')`
      renders it. */
  function Pad2(n: nat): (s: string)
    requires n < 100
    ensures |s| == 2 && DigitsOnly(s)
  {
    if n < 10 then "0" + NatToString(n)
    else
      assert NatToString(n) == NatToString(n / 10) + [DigitChar(n % 10)];
      NatToString(n)
  }

  lemma ParsePad2(n: nat)
    requires n < 100
    ensures ParseNat(Pad2(n)) == n
  {
    ParseNatToString(n);
    if n < 10 {
      var s := Pad2(n);
      assert s[..1] == "0";
    }
  }

  /** `formatDuration` for a whole number of seconds: `H:MM:SS` from one
      hour up, `M:SS` below, and "未知" for zero. */
  function FormatDuration(seconds: nat): (r: string)
    ensures seconds == 0 <==> r == "未知"
  {
    if seconds == 0 then "未知"
    else
      var hours := seconds / 3600;
      var minutes := seconds % 3600 / 60;
      var secs := seconds % 60;
      var r := if hours > 0 then Join([NatToString(hours), Pad2(minutes), Pad2(secs)], ":")
               else Join([NatToString(minutes), Pad2(secs)], ":");
      assert IsDigit(r[0]);
      r
  }

  /** Reads a `H:MM:SS` or `M:SS` text back as seconds. */
  function ParseDuration(t: string): Option<nat> {
    var parts := Split(t, ':');
    if |parts| == 3 && IsNumeral(parts[0]) && IsNumeral(parts[1]) && IsNumeral(parts[2]) then
      Some(ParseNat(parts[0]) * 3600 + ParseNat(parts[1]) * 60 + ParseNat(parts[2]))
    else if |parts| == 2 && IsNumeral(parts[0]) && IsNumeral(parts[1]) then
      Some(ParseNat(parts[0]) * 60 + ParseNat(parts[1]))
    else None
  }

  lemma NoColonInDigits(s: string)
    requires DigitsOnly(s)
    ensures ':' !in s
  {
    forall i | 0 <= i < |s| ensures s[i] != ':' {
      assert IsDigit(s[i]);
    }
  }

  /** The duration text reads back as the number of seconds it shows. */
  lemma FormatDurationRoundTrip(seconds: nat)
    requires seconds > 0
    ensures ParseDuration(FormatDuration(seconds)) == Some(seconds)
  {
    var hours := seconds / 3600;
    var minutes := seconds % 3600 / 60;
    var secs := seconds % 60;
    ClockParts(seconds);
    if hours > 0 {
      assert FormatDuration(seconds) == Join([NatToString(hours), Pad2(minutes), Pad2(secs)], ":");
      ParseClock3(hours, minutes, secs);
    } else {
      assert FormatDuration(seconds) == Join([NatToString(minutes), Pad2(secs)], ":");
      ParseClock2(minutes, secs);
    }
  }

  /** Hours, minutes and seconds recombine to the total. */
  lemma ClockParts(n: nat)
    ensures n % 3600 / 60 < 60
    ensures n == n / 3600 * 3600 + n % 3600 / 60 * 60 + n % 60
  {
    var h, r := n / 3600, n % 3600;
    var m, x := r / 60, r % 60;
    assert n == h * 3600 + r;
    assert r == m * 60 + x;
    assert n == (h * 60 + m) * 60 + x;
    ModSixty(n, h * 60 + m, x);
  }

  lemma ModSixty(a: nat, q: nat, r: nat)
    requires 0 <= r < 60 && a == q * 60 + r
    ensures a % 60 == r
  {
  }

  lemma ParseClock3(h: nat, m: nat, s: nat)
    requires m < 60 && s < 60
    ensures ParseDuration(Join([NatToString(h), Pad2(m), Pad2(s)], ":")) == Some(h * 3600 + m * 60 + s)
  {
    var parts := [NatToString(h), Pad2(m), Pad2(s)];
    ParsePad2(m);
    ParsePad2(s);
    ParseNatToString(h);
    NoColonInDigits(parts[0]);
    NoColonInDigits(parts[1]);
    NoColonInDigits(parts[2]);
    SplitJoin(parts, ':');
  }

  lemma ParseClock2(m: nat, s: nat)
    requires s < 60
    ensures ParseDuration(Join([NatToString(m), Pad2(s)], ":")) == Some(m * 60 + s)
  {
    var parts := [NatToString(m), Pad2(s)];
    ParsePad2(s);
    ParseNatToString(m);
    NoColonInDigits(parts[0]);
    NoColonInDigits(parts[1]);
    SplitJoin(parts, ':');
  }

  // ----------------------------------------------------------- request

  /** The probed info the client keeps (`currentVideoInfo`); an absent or
      falsy field is `""` or `0`. */
  datatype VideoInfo = VideoInfo(title: string, id: string, videoId: string,
                                 duration: int, maxHeight: int)

  /** The fast-start copy of the info, with falsy fields dropped. */
  datatype MinimalInfo = MinimalInfo(title: string, id: Option<string>,
                                     duration: Option<int>, maxHeight: Option<int>)

  function Minimal(info: VideoInfo): (m: MinimalInfo)
    ensures m.title == info.title
    ensures m.id.Some? <==> info.id != "" || info.videoId != ""
    ensures m.id.Some? ==> m.id.value == if info.id != "" then info.id else info.videoId
    ensures m.duration.Some? <==> info.duration != 0
    ensures m.maxHeight.Some? <==> info.maxHeight != 0
  {
    MinimalInfo(info.title,
                if info.id != "" then Some(info.id) else if info.videoId != "" then Some(info.videoId) else None,
                if info.duration != 0 then Some(info.duration) else None,
                if info.maxHeight != 0 then Some(info.maxHeight) else None)
  }

  // ----------------------------------------------------------- JSON text

  /** A lower-case hexadecimal digit, as `JSON.stringify` writes it. */
  function HexChar(d: nat): (c: char)
    requires d < 16
  {
    if d < 10 then (48 + d) as char else (87 + d) as char
  }

  /** The value of a hexadecimal digit; anything else reads as 0. */
  function HexValue(c: char): (d: nat)
    ensures d < 16
  {
    if '0' <= c <= '9' then c as int - 48
    else if 'a' <= c <= 'f' then c as int - 87
    else if 'A' <= c <= 'F' then c as int - 55
    else 0
  }

  lemma HexValueOfChar(d: nat)
    requires d < 16
    ensures HexValue(HexChar(d)) == d
  {
  }

  /** One character of a `JSON.stringify` string literal: the quote, the
      backslash and the control characters are escaped, with the short
      forms where JSON has them and `\u00XX` otherwise. Characters are
      Unicode scalar values, so no lone surrogate can occur. */
  function EscapeChar(c: char): (e: string)
    ensures |e| == 1 <==> c != '"' && c != '\\' && c as int >= 32
    ensures |e| == 1 ==> e == [c]
  {
    if c == '"' then ['\\', '"']
    else if c == '\\' then ['\\', '\\']
    else if c as int == 8 then ['\\', 'b']
    else if c as int == 12 then ['\\', 'f']
    else if c as int == 10 then ['\\', 'n']
    else if c as int == 13 then ['\\', 'r']
    else if c as int == 9 then ['\\', 't']
    else if c as int < 32 then ['\\', 'u', '0', '0', HexChar(c as int / 16), HexChar(c as int % 16)]
    else [c]
  }

  function Escape(s: string): string {
    if |s| == 0 then "" else EscapeChar(s[0]) + Escape(s[1..])
  }

  /** A JSON string literal. */
  function JsonString(s: string): string {
    "\"" + Escape(s) + "\""
  }

  /** Reading the escapes back, the inverse of `Escape`; a `\u` escape
      naming a surrogate, which no character here can hold, reads as
      U+FFFD. */
  function Unescape(e: string): string
    decreases |e|
  {
    if |e| == 0 then ""
    else if e[0] != '\\' || |e| < 2 then [e[0]] + Unescape(e[1..])
    else if e[1] == 'u' && |e| >= 6 then
      var v := HexValue(e[2]) * 4096 + HexValue(e[3]) * 256 + HexValue(e[4]) * 16 + HexValue(e[5]);
      [if 0xD800 <= v < 0xE000 then 0xFFFD as char else v as char] + Unescape(e[6..])
    else
      var c := match e[1]
        case 'b' => 8 as char
        case 'f' => 12 as char
        case 'n' => 10 as char
        case 'r' => 13 as char
        case 't' => 9 as char
        case _ => e[1];
      [c] + Unescape(e[2..])
  }

  lemma UnescapeChar(c: char, rest: string)
    ensures Unescape(EscapeChar(c) + rest) == [c] + Unescape(rest)
  {
    var e := EscapeChar(c) + rest;
    if |EscapeChar(c)| == 1 {
      assert e[1..] == rest;
    } else if c as int < 32 && c as int !in {8, 9, 10, 12, 13} {
      assert e[6..] == rest;
      HexValueOfChar(c as int / 16);
      HexValueOfChar(c as int % 16);
    } else {
      assert e[2..] == rest;
    }
  }

  /** Escaping loses nothing: the literal reads back as the original text. */
  lemma {:induction false} UnescapeEscape(s: string)
    ensures Unescape(Escape(s)) == s
  {
    if |s| > 0 {
      UnescapeChar(s[0], Escape(s[1..]));
      UnescapeEscape(s[1..]);
    }
  }

  /** `JSON.stringify(minimalInfo)`: the fields in the order the object
      literal lists them, with the dropped ones left out. */
  function MinimalJson(m: MinimalInfo): (j: string)
    ensures StartsWith(j, "{\"title\":" + JsonString(m.title))
    ensures j[|j| - 1] == '}'
  {
    var head := "{\"title\":" + JsonString(m.title);
    var id := if m.id.Some? then ",\"id\":" + JsonString(m.id.value) else "";
    var duration := if m.duration.Some? then ",\"duration\":" + IntToString(m.duration.value) else "";
    var height := if m.maxHeight.Some? then ",\"max_height\":" + IntToString(m.maxHeight.value) else "";
    head + id + duration + height + "}"
  }

  /** A query parameter value: text, or the fast-start info (whose URL
      encoding is not modelled). */
  datatype ParamValue = Text(text: string) | Cached(info: MinimalInfo)

  type Params = seq<(string, ParamValue)>

  /** What the form holds when the download button is pressed. */
  datatype Page = Page(url: string, modeRadio: string, quality: QualityOptions.Choice,
                       subtitles: string, metaToggle: Option<bool>, fastStart: bool,
                       thumbnail: bool, info: Option<VideoInfo>)

  /** The stream request and the log lines written while building it. */
  datatype Request = Request(url: string, mode: string, quality: string,
                             params: Params, logs: seq<Entry>)

  /** Whether fast start can forward the probed info. */
  predicate CanFastStart(p: Page) {
    p.fastStart && p.info.Some? && p.info.value.title != ""
  }

  /** Whether the checked choice pins its format ids. */
  predicate Pins(p: Page) {
    p.quality.videoFormat != "" && p.quality.audioFormat != "" && p.quality.value != "best"
  }

  /** The optional parameters, each group in the order they are set. */
  function SubtitleParams(p: Page): Params {
    if p.subtitles != "" then [("subtitles", Text(p.subtitles))] else []
  }

  function MetaParams(p: Page): Params {
    if p.metaToggle.Some? then [("meta", Text(if p.metaToggle.value then "1" else "0"))] else []
  }

  function FastParams(p: Page): Params {
    if CanFastStart(p) then [("skip_probe", Text("1")), ("info_cache", Cached(Minimal(p.info.value)))] else []
  }

  function ThumbnailParams(p: Page): Params {
    if p.thumbnail then [("thumbnail", Text("1"))] else []
  }

  function PinParams(p: Page): Params {
    if Pins(p) then [("video_format", Text(p.quality.videoFormat)), ("audio_format", Text(p.quality.audioFormat))] else []
  }

  function OptionalParams(p: Page): (r: Params)
    ensures |r| <= 7
    ensures forall i :: 0 <= i < |r| ==>
              r[i].0 in {"subtitles", "meta", "skip_probe", "info_cache", "thumbnail", "video_format", "audio_format"}
  {
    SubtitleParams(p) + (MetaParams(p) + (FastParams(p) + (ThumbnailParams(p) + PinParams(p))))
  }

  /** The fast-start line: the forwarded info as JSON, or a warning that
      there is none to forward. */
  function FastLog(p: Page): (l: seq<Entry>)
    ensures |l| <= 1
    ensures HasWarning(l) <==> p.fastStart && !CanFastStart(p)
  {
    if !p.fastStart then []
    else if CanFastStart(p) then [Entry("启用快速启动 fast-path: " + MinimalJson(Minimal(p.info.value)), Info)]
    else
      var w := [Entry("未获取视频信息，无法启用快速启动（将执行正常探测）", Warning)];
      assert w[0].level == Warning;
      w
  }

  /** The log lines `downloadMedia` writes while building the request. */
  function RequestLogs(p: Page, mode: string, quality: string): (r: seq<Entry>)
    ensures 1 <= |r| <= 4
    ensures r[0] == Entry("创建任务: mode=" + mode + " quality=" + quality, Info)
  {
    var created := [Entry("创建任务: mode=" + mode + " quality=" + quality, Info)];
    var fastLog := FastLog(p);
    var thumbLog := if p.thumbnail then [Entry("启用封面图下载", Info)] else [];
    var pinLog := if Pins(p) then [Entry("使用直选格式: v=" + p.quality.videoFormat + " a=" + p.quality.audioFormat, Info)] else [];
    created + fastLog + thumbLog + pinLog
  }

  /** `None` when the trimmed address is empty (the error banner case). */
  function BuildRequest(p: Page): (r: Option<Request>)
    ensures r.None? <==> JsTrim(p.url) == ""
  {
    var url := JsTrim(p.url);
    if url == "" then None
    else
      var mode := ModeFor(p.modeRadio);
      var quality := MapQuality(p.quality.value);
      var base := [("url", Text(url)), ("mode", Text(mode)), ("quality", Text(quality))];
      Some(Request(url, mode, quality, base + OptionalParams(p), RequestLogs(p, mode, quality)))
  }

  /** `params.get(name)`: the first value under `name`. */
  function Get(ps: Params, name: string): Option<ParamValue> {
    if |ps| == 0 then None else if ps[0].0 == name then Some(ps[0].1) else Get(ps[1..], name)
  }

  lemma {:induction false} GetConcat(a: Params, b: Params, name: string)
    ensures Get(a + b, name) == if Get(a, name).Some? then Get(a, name) else Get(b, name)
  {
    if |a| > 0 {
      assert (a + b)[1..] == a[1..] + b;
      GetConcat(a[1..], b, name);
    } else {
      assert a + b == b;
    }
  }

  /** What the backend should read under each parameter name: a reference
      table independent of the order the parameters are set in. */
  function Expected(p: Page, name: string): Option<ParamValue> {
    match name
    case "url" => Some(Text(JsTrim(p.url)))
    case "mode" => Some(Text(ModeFor(p.modeRadio)))
    case "quality" => Some(Text(MapQuality(p.quality.value)))
    case "subtitles" => if p.subtitles != "" then Some(Text(p.subtitles)) else None
    case "meta" => if p.metaToggle.Some? then Some(Text(if p.metaToggle.value then "1" else "0")) else None
    case "skip_probe" => if CanFastStart(p) then Some(Text("1")) else None
    case "info_cache" => if CanFastStart(p) then Some(Cached(Minimal(p.info.value))) else None
    case "thumbnail" => if p.thumbnail then Some(Text("1")) else None
    case "video_format" => if Pins(p) then Some(Text(p.quality.videoFormat)) else None
    case "audio_format" => if Pins(p) then Some(Text(p.quality.audioFormat)) else None
    case _ => None
  }

  /** The request carries exactly the expected value under every name. */
  lemma BuildRequestParams(p: Page, name: string)
    requires JsTrim(p.url) != ""
    ensures Get(BuildRequest(p).value.params, name) == Expected(p, name)
  {
    var r := BuildRequest(p).value;
    var base: Params := [("url", Text(r.url)), ("mode", Text(r.mode)), ("quality", Text(r.quality))];
    assert Get(base[2..], name) == if name == "quality" then Expected(p, name) else None;
    assert Get(base[1..], name) == if name in {"mode", "quality"} then Expected(p, name) else None;
    assert Get(base, name) == if name in {"url", "mode", "quality"} then Expected(p, name) else None;
    assert r.params == base + OptionalParams(p);
    GetConcat(base, OptionalParams(p), name);
    OptionalParamsGet(p, name);
  }

  lemma GetTwo(a: (string, ParamValue), b: (string, ParamValue), name: string)
    ensures Get([a, b], name) == if a.0 == name then Some(a.1) else if b.0 == name then Some(b.1) else None
  {
    assert [a, b][1..] == [b];
    assert [b][1..] == [];
    assert Get([b], name) == if b.0 == name then Some(b.1) else None;
  }

  lemma OptionalParamsGet(p: Page, name: string)
    ensures Get(OptionalParams(p), name)
            == if name in {"url", "mode", "quality"} then None else Expected(p, name)
  {
    assert Get(SubtitleParams(p), name) == if name == "subtitles" then Expected(p, name) else None;
    assert Get(MetaParams(p), name) == if name == "meta" then Expected(p, name) else None;
    if CanFastStart(p) {
      GetTwo(("skip_probe", Text("1")), ("info_cache", Cached(Minimal(p.info.value))), name);
    }
    if Pins(p) {
      GetTwo(("video_format", Text(p.quality.videoFormat)), ("audio_format", Text(p.quality.audioFormat)), name);
    }
    assert Get(FastParams(p), name) == if name in {"skip_probe", "info_cache"} then Expected(p, name) else None;
    assert Get(ThumbnailParams(p), name) == if name == "thumbnail" then Expected(p, name) else None;
    assert Get(PinParams(p), name) == if name in {"video_format", "audio_format"} then Expected(p, name) else None;
    GetConcat(SubtitleParams(p), MetaParams(p) + (FastParams(p) + (ThumbnailParams(p) + PinParams(p))), name);
    GetConcat(MetaParams(p), FastParams(p) + (ThumbnailParams(p) + PinParams(p)), name);
    GetConcat(FastParams(p), ThumbnailParams(p) + PinParams(p), name);
    GetConcat(ThumbnailParams(p), PinParams(p), name);
  }

  /** A warning is logged exactly when fast start was asked for without
      probed info to forward. */
  lemma FastStartWarning(p: Page)
    requires JsTrim(p.url) != ""
    ensures var logs := BuildRequest(p).value.logs;
            (exists i :: 0 <= i < |logs| && logs[i].level == Warning) <==> p.fastStart && !CanFastStart(p)
  {
    var mode := ModeFor(p.modeRadio);
    var quality := MapQuality(p.quality.value);
    assert BuildRequest(p).value.logs == RequestLogs(p, mode, quality);
    RequestLogsWarning(p, mode, quality);
  }

  predicate HasWarning(logs: seq<Entry>) {
    exists i :: 0 <= i < |logs| && logs[i].level == Warning
  }

  lemma RequestLogsWarning(p: Page, mode: string, quality: string)
    ensures HasWarning(RequestLogs(p, mode, quality)) <==> p.fastStart && !CanFastStart(p)
  {
    var created := [Entry("创建任务: mode=" + mode + " quality=" + quality, Info)];
    var fastLog := FastLog(p);
    var thumbLog := if p.thumbnail then [Entry("启用封面图下载", Info)] else [];
    var pinLog := if Pins(p) then [Entry("使用直选格式: v=" + p.quality.videoFormat + " a=" + p.quality.audioFormat, Info)] else [];
    assert RequestLogs(p, mode, quality) == created + fastLog + thumbLog + pinLog;
    WarningOnlyIn(created, fastLog, thumbLog, pinLog);
  }

  /** Only the second group can hold a warning. */
  lemma WarningOnlyIn(a: seq<Entry>, b: seq<Entry>, c: seq<Entry>, d: seq<Entry>)
    requires !HasWarning(a) && !HasWarning(c) && !HasWarning(d)
    ensures HasWarning(a + b + c + d) <==> HasWarning(b)
  {
    var all := a + b + c + d;
    forall i | 0 <= i < |all| && !(|a| <= i < |a| + |b|) ensures all[i].level != Warning {
      if i < |a| { assert all[i] == a[i]; }
      else if i < |a| + |b| + |c| { assert all[i] == c[i - |a| - |b|]; }
      else { assert all[i] == d[i - |a| - |b| - |c|]; }
    }
    if HasWarning(all) {
      var i :| 0 <= i < |all| && all[i].level == Warning;
      assert all[i] == b[i - |a|];
    }
    if HasWarning(b) {
      var i :| 0 <= i < |b| && b[i].level == Warning;
      assert all[|a| + i] == b[i];
    }
  }
}
