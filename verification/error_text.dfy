/** Turning a raw yt-dlp error message into something a user can act on:
    `classify_error` in errors.py (a code and a short text from an ordered
    table) and `_extract_root_cause` in app.py (an advice text from an
    ordered list of tests). Both test substrings of the lower-cased
    message, take the first rule that holds, and otherwise fall back to the
    message's first line cut to 400 characters. */
module ErrorText {

  import opened Options
  import opened Strings

  /** A test on the lower-cased message. */
  datatype Cond = Has(pattern: string) | And(left: Cond, right: Cond) | Or(left: Cond, right: Cond)

  predicate Holds(c: Cond, low: string) {
    match c
    case Has(p) => Contains(low, p)
    case And(a, b) => Holds(a, low) && Holds(b, low)
    case Or(a, b) => Holds(a, low) || Holds(b, low)
  }

  /** The position of the first rule at or after `k` whose test holds. */
  function FirstRule<T>(rules: seq<(Cond, T)>, low: string, k: nat): (r: Option<nat>)
    ensures r.Some? ==> k <= r.value < |rules| && Holds(rules[r.value].0, low)
    ensures forall j :: k <= j < |rules| && (r.None? || j < r.value) ==> !Holds(rules[j].0, low)
    decreases |rules| - k
  {
    if k >= |rules| then None
    else if Holds(rules[k].0, low) then Some(k)
    else FirstRule(rules, low, k + 1)
  }

  const Unknown := "未知错误"
  const FallbackWidth := 400

  // ---------------------------------------------------------- classify_error

  datatype Class = Class(code: string, text: string)

  /** `_ERROR_MAP`, with each pattern lower-cased as the lookup does. */
  const ErrorMap: seq<(Cond, Class)> := [
    (Has("http error 404"), Class("not_found", "资源不存在/已被删除")),
    (Has("http error 401"), Class("unauthorized", "需要登录授权 (401)")),
    (Has("http error 403"), Class("forbidden", "访问被拒绝/权限不足 (403)")),
    (Has("429"), Class("rate_limited", "请求过于频繁，被限流 (429)")),
    (Has("this video is private"), Class("private", "视频是私有的")),
    (Has("sign in to confirm"), Class("age_check", "需要登录验证年龄/身份")),
    (Has("members-only content"), Class("members_only", "频道会员专属内容")),
    (Has("not available in your country"), Class("geo_block", "区域限制，尝试更换节点")),
    (Has("incompleteread"), Class("network", "网络不稳定/连接被重置")),
    (Has("timed out"), Class("timeout", "网络超时")),
    (Has("unable to extract"), Class("extract_fail", "解析失败 (可能版本过旧)"))
  ]

  /** `classify_error(msg)`: a code (`None` when nothing matched) and a
      text. */
  function ClassifyError(msg: string): (r: (Option<string>, string))
    ensures msg == "" ==> r == (None, Unknown)
    ensures r.0.Some? ==> exists i :: 0 <= i < |ErrorMap| && ErrorMap[i].1 == Class(r.0.value, r.1)
    ensures r.0.None? && msg != "" ==> |r.1| <= FallbackWidth && '\n' !in r.1
  {
    if msg == "" then (None, Unknown)
    else
      match FirstRule(ErrorMap, Lower(msg), 0)
      case Some(i) => (Some(ErrorMap[i].1.code), ErrorMap[i].1.text)
      case None =>
        var t := Truncate(FirstLine(Strip(msg)), FallbackWidth);
        FallbackOneLine(FirstLine(Strip(msg)), t);
        (None, t)
  }

  /** A cut first line is short and holds no line break. */
  lemma FallbackOneLine(line: string, t: string)
    requires '\n' !in line && t == Truncate(line, FallbackWidth)
    ensures |t| <= FallbackWidth && '\n' !in t
  {
    assert forall c :: c in t ==> c in line;
  }

  /** The first table entry whose pattern occurs in the message, ignoring
      case, decides the result. */
  lemma ClassifyFirstMatch(msg: string, i: nat)
    requires msg != "" && i < |ErrorMap|
    requires Holds(ErrorMap[i].0, Lower(msg))
    requires forall j :: 0 <= j < i ==> !Holds(ErrorMap[j].0, Lower(msg))
    ensures ClassifyError(msg) == (Some(ErrorMap[i].1.code), ErrorMap[i].1.text)
  {
  }

  /** Without a matching entry the text is the first line of the stripped
      message, cut to 400 characters. */
  lemma ClassifyFallback(msg: string)
    requires msg != ""
    requires forall j :: 0 <= j < |ErrorMap| ==> !Holds(ErrorMap[j].0, Lower(msg))
    ensures ClassifyError(msg) == (None, Truncate(FirstLine(Strip(msg)), FallbackWidth))
  {
  }

  /** The code depends on the message only up to letter case. */
  lemma ClassifyIgnoresCase(a: string, b: string)
    requires a != "" && b != "" && Lower(a) == Lower(b)
    ensures ClassifyError(a).0 == ClassifyError(b).0
  {
  }

  /** "429" anywhere means rate limiting, unless a 404, 401 or 403 entry
      matched first. */
  lemma RateLimitedBy429(msg: string)
    requires msg != "" && Contains(Lower(msg), "429")
    requires forall j :: 0 <= j < 3 ==> !Holds(ErrorMap[j].0, Lower(msg))
    ensures ClassifyError(msg).0 == Some("rate_limited")
  {
    ClassifyFirstMatch(msg, 3);
  }

  /** The codes the table can give. */
  lemma ClassifyCodes(msg: string)
    ensures ClassifyError(msg).0.None? ||
            ClassifyError(msg).0.value in {"not_found", "unauthorized", "forbidden", "rate_limited", "private",
                                           "age_check", "members_only", "geo_block", "network", "timeout",
                                           "extract_fail"}
  {
  }

  // ---------------------------------------------------- _extract_root_cause

  /** The tests of `_extract_root_cause` in order, each with its advice. */
  const RootCauses: seq<(Cond, string)> := [
    (And(Has("could not copy"), Has("cookie database")),
     "无法复制浏览器 cookies。请完全关闭所有浏览器窗口（Chrome/Edge 等）后再重试。"),
    (Or(Or(Has("sign in to confirm"), Has("not a bot")), Has("consent required")),
     "需要登录验证（YouTube 验证/风控），请更新 cookies.txt"),
    (Has("you must provide at least one url"), "内部命令构建缺少URL（可能是前端传参丢失）"),
    (Has("this video is private"), "视频是私有的（需要登录有权限账号）"),
    (Or(Has("members-only content"), Has("join this channel")), "频道会员专属内容，需要对应会员账号"),
    (Or(Has("age-restricted"), Has("confirm your age")), "年龄限制视频，需要已验证成年账号的 cookies"),
    (Or(Has("this video is not available in your country"), And(Has("region"), Has("available"))),
     "区域限制（尝试切换 VPN 节点或 geo-bypass）"),
    (Or(Has("http error 429"), Has("too many requests")), "请求过于频繁，被限流（休息/换节点）"),
    (Has("http error 410"), "资源暂时不可用（410 Gone），可能接口策略变化或风控"),
    (Or(Or(Has("incompleteread"), Has("timed out")), Has("timeout")), "网络超时或连接被重置（检查网络/VPN/限流）"),
    (And(Has("unable to extract"), Has("info")), "解析失败（可能是 yt-dlp 版本过旧，尝试更新）")
  ]

  /** `_extract_root_cause(msg)`. Unlike `classify_error`, the fallback
      does not strip the message first. */
  function RootCause(msg: string): (r: string)
    ensures msg == "" ==> r == Unknown
    ensures msg != "" ==>
              (exists i :: 0 <= i < |RootCauses| && RootCauses[i].1 == r)
              || (r == Truncate(FirstLine(msg), FallbackWidth) && |r| <= FallbackWidth && r <= msg)
  {
    if msg == "" then Unknown
    else
      match FirstRule(RootCauses, Lower(msg), 0)
      case Some(i) => RootCauses[i].1
      case None => Truncate(FirstLine(msg), FallbackWidth)
  }

  lemma RootCauseFirstMatch(msg: string, i: nat)
    requires msg != "" && i < |RootCauses|
    requires Holds(RootCauses[i].0, Lower(msg))
    requires forall j :: 0 <= j < i ==> !Holds(RootCauses[j].0, Lower(msg))
    ensures RootCause(msg) == RootCauses[i].1
  {
  }

  lemma RootCauseFallback(msg: string)
    requires msg != ""
    requires forall j :: 0 <= j < |RootCauses| ==> !Holds(RootCauses[j].0, Lower(msg))
    ensures RootCause(msg) == Truncate(FirstLine(msg), FallbackWidth)
  {
  }

  /** The cookie-copy advice wins over every other rule. */
  lemma CookieCopyFirst(msg: string)
    requires Contains(Lower(msg), "could not copy") && Contains(Lower(msg), "cookie database")
    ensures RootCause(msg) == RootCauses[0].1
  {
    var low := Lower(msg);
    var i :| 0 <= i <= |low| - |"could not copy"| && OccursAt(low, "could not copy", i);
    assert |msg| == |low| > 0;
    assert RootCauses[0].0 == And(Has("could not copy"), Has("cookie database"));
    assert Holds(Has("could not copy"), low) && Holds(Has("cookie database"), low);
    RootCauseFirstMatch(msg, 0);
  }
}
