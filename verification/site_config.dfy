/** site_configs.py: a URL is sorted into one site family by substring
    tests on its lower-cased text, and each family adjusts the yt-dlp
    settings `get_download_args` returns (timeouts, retries, chunk size,
    concurrency, extra arguments). */
module SiteConfig {

  import opened Options
  import opened Strings

  // ---------------------------------------------------------- classification

  predicate IsMissav(url: string) {
    Contains(Lower(url), "missav")
  }

  predicate IsTwitter(url: string) {
    Contains(Lower(url), "twitter.com") || Contains(Lower(url), "x.com")
  }

  predicate IsYoutube(url: string) {
    Contains(Lower(url), "youtube.com") || Contains(Lower(url), "youtu.be")
  }

  predicate IsAdultSite(url: string) {
    || Contains(Lower(url), "pornhub.com") || Contains(Lower(url), "xvideos.com")
    || Contains(Lower(url), "xnxx.com") || Contains(Lower(url), "youporn.com")
  }

  datatype Site = MissAv | Adult | Twitter | YouTube | Generic

  /** The branch `get_download_args` takes: the first family whose test
      holds, in the order MissAV, adult, Twitter/X, YouTube. */
  function SiteOf(url: string): (s: Site)
    ensures s == MissAv <==> IsMissav(url)
    ensures s == Adult <==> !IsMissav(url) && IsAdultSite(url)
    ensures s == Twitter <==> !IsMissav(url) && !IsAdultSite(url) && IsTwitter(url)
    ensures s == YouTube <==> !IsMissav(url) && !IsAdultSite(url) && !IsTwitter(url) && IsYoutube(url)
    ensures s == Generic <==> !IsMissav(url) && !IsAdultSite(url) && !IsTwitter(url) && !IsYoutube(url)
  {
    if IsMissav(url) then MissAv
    else if IsAdultSite(url) then Adult
    else if IsTwitter(url) then Twitter
    else if IsYoutube(url) then YouTube
    else Generic
  }

  // ---------------------------------------------------------------- settings

  /** The settings dictionary; a key the branch does not set is `None`. */
  datatype Settings = Settings(args: seq<string>, concurrency: nat, chunkSize: string, useAria2c: Option<bool>,
                               timeout: nat, retries: nat, impersonate: Option<string>,
                               fragmentRetries: Option<nat>)

  /** The settings every URL starts from. */
  function Defaults(fastMode: bool): (d: Settings)
    ensures d.args == [] && d.concurrency == 4 && d.chunkSize == "4M" && d.useAria2c.None?
    ensures d.impersonate.None? && d.fragmentRetries.None?
    ensures d.timeout == (if fastMode then 15 else 30) && d.retries == (if fastMode then 2 else 5)
  {
    Settings([], 4, "4M", None, if fastMode then 15 else 30, if fastMode then 2 else 5, None, None)
  }

  const ChromeAgent := "Mozilla/5.0 (Windows NT 10.0; Win64; x64) AppleWebKit/537.36 (KHTML, like Gecko) Chrome/120.0.0.0 Safari/537.36"

  const MissavArgs: seq<string> := [
    "--user-agent", ChromeAgent,
    "--add-header", "Accept:text/html,application/xhtml+xml,application/xml;q=0.9,image/avif,image/webp,image/apng,*/*;q=0.8",
    "--add-header", "Accept-Language:en-US,en;q=0.9,zh-CN;q=0.8,zh;q=0.7",
    "--add-header", "Referer:https://missav.ws/",
    "--add-header", "Sec-Ch-Ua:\"Chromium\";v=\"120\", \"Google Chrome\";v=\"120\"",
    "--add-header", "Sec-Ch-Ua-Mobile:?0",
    "--add-header", "Sec-Fetch-Dest:document",
    "--add-header", "Sec-Fetch-Mode:navigate",
    "--add-header", "Sec-Fetch-Site:same-origin",
    "--add-header", "Upgrade-Insecure-Requests:1",
    "--sleep-interval", "5",
    "--max-sleep-interval", "15"
  ]

  const MissavExtendedArgs: seq<string> := ["--sleep-interval", "8", "--max-sleep-interval", "20"]

  const AdultArgs: seq<string> := [
    "--force-ipv4",
    "--user-agent", ChromeAgent,
    "--sleep-interval", "2",
    "--max-sleep-interval", "5",
    "--referer", "https://www.google.com/",
    "--add-header", "Accept-Language:en-US,en;q=0.9"
  ]

  const TwitterArgs: seq<string> := [
    "--user-agent", "Mozilla/5.0 (Windows NT 10.0; Win64; x64; rv:131.0) Gecko/20100101 Firefox/131.0",
    "--add-header", "Referer:https://x.com/",
    "--add-header", "Accept-Language:en-US,en;q=0.9"
  ]

  const TwitterExtendedArgs: seq<string> := ["--add-header", "Accept:*/*", "--add-header", "Origin:https://x.com"]

  const YoutubeAgent := "Mozilla/5.0 (Windows NT 10.0; Win64; x64) AppleWebKit/537.36 (KHTML, like Gecko) Chrome/131.0.0.0 Safari/537.36"

  const YoutubeArgs: seq<string> := [
    "--retry-sleep", "3",
    "--user-agent", YoutubeAgent,
    "--add-header", "Accept-Language:en-US,en;q=0.9,zh-CN;q=0.8,zh;q=0.7",
    "--add-header", "Referer:https://www.youtube.com/"
  ]

  const YoutubeExtendedArgs: seq<string> := [
    "--retry-sleep", "5",
    "--user-agent", YoutubeAgent + " Edg/131.0.0.0",
    "--add-header", "Accept:text/html,application/xhtml+xml,application/xml;q=0.9,image/avif,image/webp,image/apng,*/*;q=0.8,application/signed-exchange;v=b3;q=0.7",
    "--add-header", "Accept-Encoding:gzip, deflate, br",
    "--add-header", "Cache-Control:max-age=0",
    "--add-header", "DNT:1",
    "--add-header", "Origin:https://www.youtube.com",
    "--sleep-interval", "3", "--max-sleep-interval", "7"
  ]

  /** `SiteConfig(url).get_download_args(fast_mode, extended)`. The
      `primary` flag changes nothing and is not a parameter. */
  function DownloadArgs(url: string, fastMode: bool, extended: bool): (r: Settings)
    ensures SiteOf(url) == Generic ==> r == Defaults(fastMode)
    ensures r.concurrency in {4, 16} && r.chunkSize in {"4M", "10M", "1M"}
    ensures r.useAria2c.Some? ==> SiteOf(url) == MissAv && !r.useAria2c.value
  {
    var d := Defaults(fastMode);
    match SiteOf(url)
    case MissAv =>
      var base := d.(impersonate := Some("chrome"),
                     timeout := if fastMode then 15 else 90, retries := if fastMode then 2 else 8,
                     chunkSize := "10M", concurrency := 16, useAria2c := Some(false),
                     args := d.args + MissavArgs);
      if extended then
        base.(timeout := if fastMode then 45 else 120, retries := if fastMode then 7 else 10,
              args := base.args + MissavExtendedArgs)
      else base
    case Adult => d.(chunkSize := "1M", args := d.args + AdultArgs)
    case Twitter =>
      var base := d.(timeout := if fastMode then 20 else 40, retries := if fastMode then 2 else 4,
                     args := d.args + TwitterArgs);
      if extended then base.(timeout := 55, retries := 6, args := base.args + TwitterExtendedArgs)
      else base
    case YouTube =>
      var base := d.(timeout := 30, fragmentRetries := Some(if fastMode then 5 else 10),
                     args := d.args + YoutubeArgs);
      if extended then
        base.(timeout := if fastMode then 40 else 60, retries := if fastMode then 7 else 8,
              fragmentRetries := Some(if fastMode then 8 else 15),
              args := base.args + YoutubeExtendedArgs)
      else base
    case Generic => d
  }

  // ------------------------------------------------------------ properties

  /** MissAV: Chrome impersonation, 16-way HLS, 10M chunks, no aria2c, and
      longer timeouts and more retries than the defaults. */
  lemma MissavSettings(url: string, fastMode: bool, extended: bool)
    requires IsMissav(url)
    ensures var r := DownloadArgs(url, fastMode, extended);
            && r.impersonate == Some("chrome") && r.concurrency == 16 && r.chunkSize == "10M"
            && r.useAria2c == Some(false)
            && r.timeout == (if extended then (if fastMode then 45 else 120) else (if fastMode then 15 else 90))
            && r.retries == (if extended then (if fastMode then 7 else 10) else (if fastMode then 2 else 8))
            && r.timeout >= Defaults(fastMode).timeout && r.retries >= Defaults(fastMode).retries
  {
  }

  /** An adult site differs from the defaults only in chunk size and
      arguments, in every mode. */
  lemma AdultOnlyChunkAndArgs(url: string, fastMode: bool, extended: bool)
    requires !IsMissav(url) && IsAdultSite(url)
    ensures DownloadArgs(url, fastMode, extended) == Defaults(fastMode).(chunkSize := "1M", args := AdultArgs)
  {
  }

  /** Twitter/X: extended mode fixes 55 s and 6 retries whatever the
      fast flag. */
  lemma TwitterSettings(url: string, fastMode: bool, extended: bool)
    requires SiteOf(url) == Twitter
    ensures var r := DownloadArgs(url, fastMode, extended);
            && r.timeout == (if extended then 55 else if fastMode then 20 else 40)
            && r.retries == (if extended then 6 else if fastMode then 2 else 4)
            && r.concurrency == 4 && r.chunkSize == "4M"
    ensures extended ==> DownloadArgs(url, true, true) == DownloadArgs(url, false, true)
  {
  }

  /** YouTube: a 30 s timeout in either speed mode unless extended; more
      fragment retries in normal mode. */
  lemma YoutubeSettings(url: string, fastMode: bool, extended: bool)
    requires SiteOf(url) == YouTube
    ensures var r := DownloadArgs(url, fastMode, extended);
            && r.timeout == (if extended then (if fastMode then 40 else 60) else 30)
            && r.retries == (if extended then (if fastMode then 7 else 8) else Defaults(fastMode).retries)
            && r.fragmentRetries == Some(if extended then (if fastMode then 8 else 15) else (if fastMode then 5 else 10))
  {
  }

  /** Extended mode only appends arguments: the normal ones stay a prefix. */
  lemma ExtendedAppendsArgs(url: string, fastMode: bool)
    ensures DownloadArgs(url, fastMode, false).args <= DownloadArgs(url, fastMode, true).args
    ensures SiteOf(url) in {Adult, Generic} ==> DownloadArgs(url, fastMode, true) == DownloadArgs(url, fastMode, false)
  {
  }

  /** The Twitter/X test is a bare substring test, so any host ending in
      "x.com" counts, e.g. "netflix.com". */
  lemma TwitterBySubstring(pre: string, post: string)
    ensures IsTwitter(pre + "x.com" + post)
  {
    ContainsSelf("x.com");
    LowerOfNoUpper("x.com");
    LowerConcatThree(pre, "x.com", post);
    ContainsInConcat(Lower(pre), "x.com", Lower(post), "x.com");
  }

  lemma LowerConcatThree(a: string, b: string, c: string)
    ensures Lower(a + b + c) == Lower(a) + Lower(b) + Lower(c)
  {
  }
}
