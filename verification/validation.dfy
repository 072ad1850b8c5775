/** The request guards of service/utils/common.py (repeated in app.py):
    URL validation against local-network targets, input sanitising, and
    the retry-with-backoff wrapper. `urlparse` and the wrapped function
    are parameters. */
module Validation {

  import opened Strings

  // ------------------------------------------------------------ URLs

  /** What `urlparse` gives for a URL, or that it raised. `hostname` is
      the parsed host name, absent when the URL has none. */
  datatype Parsed =
    | Parsed(scheme: string, netloc: string, hostname: string)
    | ParseError

  const MaxUrlLength := 2048
  const MaxHostLength := 253

  /** Host names refused as local-network targets: three exact names and
      three prefixes. */
  predicate LocalHost(h: string) {
    || h == "localhost" || h == "127.0.0.1" || h == "0.0.0.0"
    || StartsWith(h, "192.168.") || StartsWith(h, "10.") || StartsWith(h, "172.")
  }

  /** `validate_url(url)`. */
  function ValidateUrl(url: string, parse: string -> Parsed): (ok: bool)
    ensures ok <==>
      && url != ""
      && |Strip(url)| <= MaxUrlLength
      && parse(Strip(url)).Parsed?
      && var p := parse(Strip(url));
         && p.scheme != "" && p.netloc != ""
         && Lower(p.scheme) in {"http", "https"}
         && 0 < |p.hostname| <= MaxHostLength
         && !LocalHost(p.hostname)
  {
    if url == "" then false
    else
      var u := Strip(url);
      if |u| > MaxUrlLength then false
      else
        match parse(u)
        case ParseError => false
        case Parsed(scheme, netloc, host) =>
          if scheme == "" || netloc == "" then false
          else if Lower(scheme) !in {"http", "https"} then false
          else if host == "" || |host| > MaxHostLength then false
          else !LocalHost(host)
  }

  /** Only http and https pass, in any letter case. */
  lemma SchemeChecked(url: string, parse: string -> Parsed)
    requires ValidateUrl(url, parse)
    ensures Lower(parse(Strip(url)).scheme) == "http" || Lower(parse(Strip(url)).scheme) == "https"
  {
  }

  /** The "172." prefix covers all of 172.0.0.0/8, public addresses
      outside 172.16.0.0/12 included. */
  lemma PrefixCoversPublic172(url: string, parse: string -> Parsed, rest: string)
    requires parse(Strip(url)).Parsed? && parse(Strip(url)).hostname == "172.217." + rest
    ensures !ValidateUrl(url, parse)
  {
    assert ("172.217." + rest)[..4] == "172.";
  }

  /** Loopback addresses other than 127.0.0.1 are not refused. */
  lemma OtherLoopbackPasses(url: string, parse: string -> Parsed)
    requires url != "" && |Strip(url)| <= MaxUrlLength
    requires parse(Strip(url)) == Parsed("http", "127.0.0.2", "127.0.0.2")
    ensures ValidateUrl(url, parse)
  {
    var h := "127.0.0.2";
    assert h[1] != "10."[1] && h[1] != "172."[1] && h[1] != "192.168."[1];
    LowerOfNoUpper("http");
  }

  // ------------------------------------------------------------ sanitising

  /** Kept by the control-character filter: code 32 and up, or a line
      feed, carriage return or tab. */
  predicate Printable(c: char) {
    c as int >= 32 || c == '\n' || c == '\r' || c == '\t'
  }

  predicate Dangerous(c: char) {
    || c == ';' || c == '&' || c == '|' || c == '`' || c == '$' || c == '('
    || c == ')' || c == '<' || c == '>' || c == '"' || c == '\''
  }

  /** The characters of `s` that `keep` accepts, in order. */
  function KeepWhere(s: string, keep: char -> bool): (r: string)
    ensures |r| <= |s|
    ensures forall i :: 0 <= i < |r| ==> keep(r[i])
    ensures forall c :: c in r ==> c in s
  {
    if s == "" then ""
    else
      var rest := KeepWhere(s[1..], keep);
      if keep(s[0]) then [s[0]] + rest else rest
  }

  lemma {:induction false} KeepWhereAll(s: string, keep: char -> bool)
    requires forall i :: 0 <= i < |s| ==> keep(s[i])
    ensures KeepWhere(s, keep) == s
    decreases |s|
  {
    if s != "" {
      KeepWhereAll(s[1..], keep);
    }
  }

  predicate Safe(c: char) {
    !Dangerous(c)
  }

  /** `text[:max_length]` when longer, with Python's reading of a negative
      bound as counted from the end. */
  function Cut(s: string, maxLength: int): (r: string)
    ensures r <= s
    ensures maxLength >= 0 ==> |r| <= maxLength
    ensures |s| <= maxLength ==> r == s
  {
    if |s| <= maxLength then s
    else if maxLength >= 0 then s[..maxLength]
    else if |s| + maxLength >= 0 then s[..|s| + maxLength]
    else ""
  }

  /** `sanitize_input(text, max_length)`. */
  function SanitizeInput(text: string, maxLength: int): (r: string)
    ensures maxLength >= 0 ==> |r| <= maxLength
    ensures forall i :: 0 <= i < |r| ==> Printable(r[i]) && !Dangerous(r[i])
    ensures r != "" ==> !IsSpace(r[0]) && !IsSpace(r[|r| - 1])
  {
    if text == "" then ""
    else
      var printable := KeepWhere(text, Printable);
      var cut := Cut(printable, maxLength);
      var safe := KeepWhere(cut, Safe);
      SafeKeepsPrintable(cut, printable);
      TrimKeepsChars(safe, IsSpace);
      Strip(safe)
  }

  lemma SafeKeepsPrintable(cut: string, printable: string)
    requires cut <= printable && forall i :: 0 <= i < |printable| ==> Printable(printable[i])
    ensures forall c :: c in KeepWhere(cut, Safe) ==> Printable(c) && !Dangerous(c)
  {
    forall c | c in KeepWhere(cut, Safe) ensures Printable(c) && !Dangerous(c) {
      var i :| 0 <= i < |KeepWhere(cut, Safe)| && KeepWhere(cut, Safe)[i] == c;
      assert c in cut;
      var j :| 0 <= j < |cut| && cut[j] == c;
      assert printable[j] == c;
    }
  }

  /** Sanitising sanitised text changes nothing (for a bound that is not
      negative). */
  lemma SanitizeIdempotent(text: string, maxLength: int)
    requires maxLength >= 0
    ensures SanitizeInput(SanitizeInput(text, maxLength), maxLength) == SanitizeInput(text, maxLength)
  {
    var s := SanitizeInput(text, maxLength);
    if s != "" {
      KeepWhereAll(s, Printable);
      KeepWhereAll(s, Safe);
      TrimOfTrimmed(s, IsSpace);
    }
  }

  // ----------------------------------------------------------------- retry

  /** What one call of the wrapped function did: returned a value, or
      raised an exception whose type is or is not among the retried ones. */
  datatype Outcome<V> = Returned(value: V) | Raised(error: string, retried: bool)

  /** The wrapper's result: the value or the exception it passed on, the
      number of calls made and the sleeps taken between them. */
  datatype RetryResult<V> = RetryResult(result: Outcome<V>, calls: nat, sleeps: seq<real>)

  const NoExceptionError := "RuntimeError"

  function Power(b: real, n: nat): real {
    if n == 0 then 1.0 else b * Power(b, n - 1)
  }

  /** `retry_on_failure(max_retries, backoff_factor, exceptions)(func)()`,
      where `call(k)` is what the k-th call (from 0) does. */
  method Retry<V>(maxRetries: int, backoff: real, call: nat -> Outcome<V>) returns (r: RetryResult<V>)
    ensures r.calls <= (if maxRetries < 0 then 0 else maxRetries + 1)
    ensures r.calls == 0 <==> maxRetries < 0
    ensures r.calls == 0 ==> r.result == Raised(NoExceptionError, false)
    // every call before the last raised a retried exception
    ensures forall k :: 0 <= k < r.calls - 1 ==> call(k).Raised? && call(k).retried
    // the last call's outcome is passed on as it is
    ensures r.calls > 0 ==> r.result == call(r.calls - 1)
    // a retried exception ends the wrapper only once the retries are spent
    ensures r.calls > 0 && r.result.Raised? && r.result.retried ==> r.calls == maxRetries + 1
    ensures |r.sleeps| == (if r.calls == 0 then 0 else r.calls - 1)
    ensures forall k :: 0 <= k < |r.sleeps| ==> r.sleeps[k] == Power(backoff, k)
  {
    var sleeps: seq<real> := [];
    var attempt: nat := 0;
    while attempt <= maxRetries
      invariant maxRetries >= 0 ==> attempt <= maxRetries
      invariant maxRetries < 0 ==> attempt == 0
      invariant forall k :: 0 <= k < attempt ==> call(k).Raised? && call(k).retried
      invariant |sleeps| == attempt
      invariant forall k :: 0 <= k < attempt ==> sleeps[k] == Power(backoff, k)
      decreases maxRetries + 1 - attempt
    {
      var outcome := call(attempt);
      if outcome.Returned? || !outcome.retried {
        return RetryResult(outcome, attempt + 1, sleeps);
      }
      if attempt < maxRetries {
        sleeps := sleeps + [Power(backoff, attempt)];
      } else {
        return RetryResult(outcome, attempt + 1, sleeps);
      }
      attempt := attempt + 1;
    }
    return RetryResult(Raised(NoExceptionError, false), 0, []);
  }
}
