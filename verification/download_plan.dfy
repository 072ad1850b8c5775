/** The decisions `execute_download` in service/tasks/downloader.py makes
    before and around running yt-dlp: whether to skip the probe, the title
    and its file-safe form, the initial concurrency and chunk size, whether
    to hand the transfer to aria2c, and which meta-file mode applies.
    Environment variables and probe results are parameters; an unset
    variable is the empty string. */
module DownloadPlan {

  import opened Options
  import opened Strings
  import ErrorText
  import SiteConfig

  // ------------------------------------------------------------ fast path

  /** The client's cached info: how many keys the dictionary has and its
      title (`""` when absent or empty). */
  datatype InfoCache = InfoCache(keys: nat, title: string)

  /** What `_probe_info` gave: the info's title, or the message of the
      exception it raised. */
  datatype Probe = Probed(title: string) | ProbeFailed(message: string)

  datatype Start =
    | FastStart(title: string)
    | Fetched(title: string)
    | Failed(code: Option<string>, message: string)

  const DefaultTitle := "video"

  /** How `execute_download` starts: the fast path needs `skip_probe` and a
      non-empty cached dictionary; otherwise the probe decides. */
  function StartDownload(skipProbe: bool, cache: Option<InfoCache>, probe: Probe): (r: Start)
    ensures r.FastStart? <==> skipProbe && cache.Some? && cache.value.keys > 0
    ensures r.FastStart? ==> r.title == (if cache.value.title != "" then cache.value.title else DefaultTitle)
    ensures r.Fetched? <==> !r.FastStart? && probe.Probed?
    ensures r.Fetched? ==> r.title == (if probe.title != "" then probe.title else DefaultTitle)
    ensures r.Failed? ==> probe.ProbeFailed? && (r.code, r.message) == ErrorText.ClassifyError(probe.message)
    ensures !r.Failed? ==> r.title != ""
  {
    if skipProbe && cache.Some? && cache.value.keys > 0 then
      FastStart(if cache.value.title != "" then cache.value.title else DefaultTitle)
    else
      match probe
      case Probed(t) => Fetched(if t != "" then t else DefaultTitle)
      case ProbeFailed(msg) =>
        var c := ErrorText.ClassifyError(msg);
        Failed(c.0, c.1)
  }

  /** The stage recorded when the download starts. */
  function StartStage(r: Start): string {
    if r.FastStart? then "fast_start" else "fetch_info"
  }

  // --------------------------------------------------------- safe filename

  /** The characters `[\\/:*?"<>|]` matches. */
  predicate Forbidden(c: char) {
    c == '\\' || c == '/' || c == ':' || c == '*' || c == '?' || c == '"' || c == '<' || c == '>' || c == '|'
  }

  const MaxNameLength := 150

  /** The `re.sub` step: every forbidden character becomes '_'. */
  function ReplaceForbidden(name: string): (r: string)
    ensures |r| == |name|
    ensures forall i :: 0 <= i < |r| ==> r[i] == (if Forbidden(name[i]) then '_' else name[i])
  {
    seq(|name|, i requires 0 <= i < |name| => if Forbidden(name[i]) then '_' else name[i])
  }

  predicate IsDot(c: char) {
    c == '.'
  }

  /** `_safe_filename`: forbidden characters become '_', whitespace and
      then dots are stripped from both ends, the result is cut to 150
      characters, and an empty result becomes "video". */
  function SafeFilename(name: string): (r: string)
    ensures r != "" && |r| <= MaxNameLength
    ensures forall i :: 0 <= i < |r| ==> !Forbidden(r[i])
  {
    var replaced := ReplaceForbidden(name);
    var stripped := Trim(Strip(replaced), IsDot);
    NoForbiddenAfterTrim(replaced);
    var cut := Shorten(stripped);
    NoForbiddenInPrefix(stripped, cut);
    DefaultTitleSafe();
    if cut == "" then DefaultTitle else cut
  }

  lemma DefaultTitleSafe()
    ensures forall i :: 0 <= i < |DefaultTitle| ==> !Forbidden(DefaultTitle[i])
  {
  }

  lemma NoForbiddenInPrefix(s: string, p: string)
    requires p <= s && forall i :: 0 <= i < |s| ==> !Forbidden(s[i])
    ensures forall i :: 0 <= i < |p| ==> !Forbidden(p[i])
  {
  }

  /** `name[:150]` when longer. */
  function Shorten(s: string): (r: string)
    ensures |r| <= MaxNameLength && r <= s
    ensures |s| <= MaxNameLength ==> r == s
  {
    if |s| > MaxNameLength then s[..MaxNameLength] else s
  }

  lemma NoForbiddenAfterTrim(replaced: string)
    requires forall i :: 0 <= i < |replaced| ==> !Forbidden(replaced[i])
    ensures var t := Trim(Strip(replaced), IsDot);
            forall i :: 0 <= i < |t| ==> !Forbidden(t[i])
  {
    TrimKeepsChars(replaced, IsSpace);
    TrimKeepsChars(Strip(replaced), IsDot);
    var t := Trim(Strip(replaced), IsDot);
    forall i | 0 <= i < |t| ensures !Forbidden(t[i]) {
      assert t[i] in Strip(replaced);
      assert t[i] in replaced;
    }
  }

  /** A name that is already safe passes through unchanged. */
  lemma SafeFilenameKeepsSafe(name: string)
    requires 0 < |name| <= MaxNameLength
    requires forall i :: 0 <= i < |name| ==> !Forbidden(name[i])
    requires !IsSpace(name[0]) && !IsSpace(name[|name| - 1])
    requires !IsDot(name[0]) && !IsDot(name[|name| - 1])
    ensures SafeFilename(name) == name
  {
    assert ReplaceForbidden(name) == name;
    TrimOfTrimmed(name, IsSpace);
    TrimOfTrimmed(name, IsDot);
  }

  // ------------------------------------------------------- transfer setup

  /** An environment flag is on for "1", "true" or "yes" in any case. */
  predicate EnvOn(v: string) {
    Lower(v) in {"1", "true", "yes"}
  }

  /** `LUMINA_FAST_START`, else `UMD_FAST_START`. */
  predicate FastStartOn(lumina: string, umd: string) {
    EnvOn(if lumina != "" then lumina else umd)
  }

  /** The initial (concurrency, chunk size): YouTube URLs (tested on the
      raw URL) get 4/"4M"; otherwise fast start raises anything below 8 to
      8/"8M"; otherwise the site configuration's values stand. */
  function InitialTransfer(url: string, fastStart: bool): (r: (nat, string))
    ensures Contains(url, "youtube.com") || Contains(url, "youtu.be") ==> r == (4, "4M")
    ensures !(Contains(url, "youtube.com") || Contains(url, "youtu.be")) && fastStart ==> r.0 >= 8
    ensures !(Contains(url, "youtube.com") || Contains(url, "youtu.be")) && !fastStart ==>
              r == (SiteConfig.DownloadArgs(url, false, false).concurrency, SiteConfig.DownloadArgs(url, false, false).chunkSize)
  {
    var sc := SiteConfig.DownloadArgs(url, fastStart, false);
    if Contains(url, "youtube.com") || Contains(url, "youtu.be") then (4, "4M")
    else if fastStart && sc.concurrency < 8 then (8, "8M")
    else (sc.concurrency, sc.chunkSize)
  }

  const Aria2cBlocked: seq<string> := ["youtube.com", "youtu.be", "googlevideo.com"]

  /** `_should_use_aria2c`: never without an aria2c binary or for a
      YouTube host; `host` is the parsed URL's host name (`""` when it has
      none, `None` when parsing raised). */
  function ShouldUseAria2c(hasAria2c: bool, host: Option<string>): (r: bool)
    ensures !hasAria2c ==> !r
    ensures hasAria2c && host.None? ==> r
    ensures hasAria2c && host.Some? ==> (r <==> forall i :: 0 <= i < |Aria2cBlocked| ==> !Contains(Lower(host.value), Aria2cBlocked[i]))
  {
    if !hasAria2c then false
    else
      match host
      case None => true
      case Some(h) =>
        var low := Lower(h);
        assert Aria2cBlocked[0] == "youtube.com" && Aria2cBlocked[1] == "youtu.be" && Aria2cBlocked[2] == "googlevideo.com";
        !(Contains(low, "youtube.com") || Contains(low, "youtu.be") || Contains(low, "googlevideo.com"))
  }

  /** The site's own aria2c choice wins; without one the host rule applies. */
  function UseAria2cInitially(url: string, fastStart: bool, hasAria2c: bool, host: Option<string>): (r: bool)
    ensures SiteConfig.SiteOf(url) == SiteConfig.MissAv ==> !r
    ensures SiteConfig.SiteOf(url) != SiteConfig.MissAv ==> r == ShouldUseAria2c(hasAria2c, host)
  {
    match SiteConfig.DownloadArgs(url, fastStart, false).useAria2c
    case Some(b) => b
    case None => ShouldUseAria2c(hasAria2c, host)
  }

  /** YouTube traffic never goes through aria2c. */
  lemma YoutubeHostNoAria2c(hasAria2c: bool, pre: string, post: string)
    ensures !ShouldUseAria2c(hasAria2c, Some(pre + "googlevideo.com" + post))
  {
    var h := pre + "googlevideo.com" + post;
    LowerOfNoUpper("googlevideo.com");
    assert Lower(h) == Lower(pre) + Lower("googlevideo.com") + Lower(post);
    ContainsSelf("googlevideo.com");
    ContainsInConcat(Lower(pre), "googlevideo.com", Lower(post), "googlevideo.com");
  }

  // --------------------------------------------------------------- meta mode

  const MetaModes := {"off", "sidecar", "folder"}

  /** `_write_meta_file`'s mode: the task's own setting (trimmed, lower
      case), else `META_MODE` as given, else "off" in a frozen build or
      when `LUMINA_DISABLE_META` is on, else "sidecar"; an unknown value
      means "sidecar". */
  function MetaMode(taskMode: string, envMode: string, frozen: bool, disableMeta: string): (r: string)
    ensures r in MetaModes
    ensures Lower(Strip(taskMode)) in MetaModes ==> r == Lower(Strip(taskMode))
    ensures Lower(Strip(taskMode)) == "" && envMode in MetaModes ==> r == envMode
    ensures Lower(Strip(taskMode)) == "" && envMode == "" ==>
              r == (if frozen || EnvOn(disableMeta) then "off" else "sidecar")
    ensures Lower(Strip(taskMode)) != "" && Lower(Strip(taskMode)) !in MetaModes ==> r == "sidecar"
  {
    var own := Lower(Strip(taskMode));
    var raw := if own != "" then own else envMode;
    var raw2 := if raw == "" && frozen then "off" else raw;
    var raw3 := if raw2 == "" then (if EnvOn(disableMeta) then "off" else "sidecar") else raw2;
    if raw3 in MetaModes then raw3 else "sidecar"
  }

  /** `META_MODE` is compared as written: "OFF" is not "off". */
  lemma EnvModeCaseSensitive(frozen: bool, disableMeta: string)
    ensures MetaMode("", "OFF", frozen, disableMeta) == "sidecar"
  {
    assert Strip("") == "";
  }
}
