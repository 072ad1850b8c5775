/** The client's task session (static/main.js): one record holding the
    open event stream, the first task id seen, the two busy buttons, the
    status, percent and remaining-time texts, the start time, the log and
    the error banner. It is advanced by the user's actions and by what the
    open stream delivers; each step also reports the stream and cancel
    requests it makes. */
module ClientSession {

  import opened Options
  import opened Strings
  import opened LogSink
  import opened RequestBuild

  datatype StreamKind = DownloadStream | SubtitleStream

  /** `currentEventSource`: at most one stream at a time. */
  datatype Stream = Closed | Open(kind: StreamKind)

  /** The percent text: a clamped value shown with one decimal, the literal
      "100%" written on completion, or "已取消". */
  datatype Percent = Shown(p: real) | Hundred | CanceledText

  /** The remaining-time text: "--:--" or minutes and seconds. */
  datatype Eta = Unknown | Clock(minutes: int, seconds: int)

  /** The page state. A missing task id is `""`; a hidden banner is `""`. */
  datatype Session = Session(stream: Stream, taskId: string, busy: bool, subtitleBusy: bool,
                             status: string, percent: Percent, eta: Eta,
                             startTime: Option<real>, log: seq<Entry>, banner: string)

  /** One parsed stream message; an absent field is `""` or `None`. */
  datatype Msg = Msg(error: string, taskId: string, kind: string, line: string,
                     stage: string, status: string, progress: Option<real>,
                     event: string, filePath: string)

  /** The reply to the cancel request, or the reason it failed. */
  datatype CancelReply = Acked(body: string) | Failed(reason: string)

  datatype Event =
    | Start(page: Page, now: real)
    | StartSubtitles(url: string, subtitles: string, now: real)
    | Message(msg: Msg, now: real)
    | Unreadable
    | TransportError
    | Cancel(reply: CancelReply)
    | Clear

  /** What a step asks of the outside world. */
  datatype Effect = OpenStream(kind: StreamKind, params: Params) | CloseStream | PostCancel(id: string)

  datatype Outcome = Outcome(next: Session, effects: seq<Effect>)

  const ConnectionLost := "与服务器的连接中断，请检查后端服务是否仍在运行。"

  /** The page as first shown, with the texts `clearLogs` restores. */
  const Init := Session(Closed, "", false, false, "等待下载...", Shown(0.0), Unknown, None, [], "")

  // ------------------------------------------------------------- helpers

  /** `updateStageStatus(stage, status)`: `stage || status || ''`, with the
      five known codes translated and anything else shown as it is. */
  function StageLabel(stage: string, status: string): string {
    var code := if stage != "" then stage else status;
    match code
    case "queued" => "队列中"
    case "downloading" => "下载中"
    case "merging" => "合并处理中"
    case "finished" => "完成"
    case "error" => "出错"
    case _ => code
  }

  /** Labelling a label again changes nothing, and distinct known codes
      get distinct labels. */
  lemma StageLabelIdempotent(stage: string, status: string)
    ensures StageLabel(StageLabel(stage, status), "") == StageLabel(stage, status)
  {
  }

  lemma StageLabelsDistinct(a: string, b: string)
    requires a in {"queued", "downloading", "merging", "finished", "error"}
    requires b in {"queued", "downloading", "merging", "finished", "error"}
    requires a != b
    ensures StageLabel(a, "") != StageLabel(b, "")
  {
  }

  /** `closeCurrentEventSource`. */
  function CloseCurrent(s: Session): (o: Outcome)
    ensures o.next == s.(stream := Closed)
    ensures o.effects == if s.stream.Open? then [CloseStream] else []
  {
    if s.stream.Open? then Outcome(s.(stream := Closed), [CloseStream]) else Outcome(s, [])
  }

  function Log(s: Session, text: string, lv: Level): Session {
    s.(log := AddLog(s.log, Entry(text, lv)))
  }

  /** Logging touches nothing but the log. */
  function LogAll(s: Session, es: seq<Entry>): (r: Session)
    ensures r == s.(log := r.log)
    decreases |es|
  {
    if |es| == 0 then s else LogAll(s.(log := AddLog(s.log, es[0])), es[1..])
  }

  /** `resetProgressUI`. */
  function ResetProgress(s: Session): Session {
    s.(percent := Shown(0.0), status := "准备中...", eta := Unknown)
  }

  /** `Math.min(100, Math.max(0, p))`. */
  function Clamp(p: real): (c: real)
    ensures 0.0 <= c <= 100.0
    ensures 0.0 <= p <= 100.0 ==> c == p
  {
    if p > 100.0 then 100.0 else if p < 0.0 then 0.0 else p
  }

  /** JavaScript's `Math.trunc`. */
  function Trunc(x: real): int {
    if x >= 0.0 then x.Floor else -((-x).Floor)
  }

  /** The remaining-time estimate for `pct` percent done after `elapsed`
      seconds: `floor(rem / 60)` and `floor(rem % 60)` with JavaScript's
      truncating `%`. */
  function EtaAt(elapsed: real, pct: real): Eta
    requires pct > 0.0
  {
    var rem := elapsed * (100.0 - pct) / pct;
    Clock((rem / 60.0).Floor, (rem - 60.0 * (Trunc(rem / 60.0) as real)).Floor)
  }

  /** For a non-negative estimate the clock shows it rounded down to a
      whole second, with the seconds below 60. */
  lemma EtaAtShowsRemaining(elapsed: real, pct: real)
    requires 0.0 < pct < 100.0 && elapsed >= 0.0
    ensures var rem := elapsed * (100.0 - pct) / pct;
            var c := EtaAt(elapsed, pct);
            && 0 <= c.seconds < 60 && c.minutes >= 0
            && (60 * c.minutes + c.seconds) as real <= rem < (60 * c.minutes + c.seconds + 1) as real
  {
    var rem := elapsed * (100.0 - pct) / pct;
    assert rem >= 0.0 by {
      assert elapsed * (100.0 - pct) >= 0.0;
    }
    var m := (rem / 60.0).Floor;
    assert m as real <= rem / 60.0 < m as real + 1.0;
    assert 60.0 * (m as real) <= rem < 60.0 * (m as real) + 60.0;
  }

  function Elapsed(s: Session, now: real): real {
    (now - match s.startTime case Some(t) => t case None => 0.0) / 1000.0
  }

  // ------------------------------------------------- the download stream

  /** The progress part of a status message on the download stream. */
  function DownloadProgress(s: Session, m: Msg, now: real): (r: Session)
    ensures r == s.(percent := r.percent, eta := r.eta)
    ensures m.progress.None? ==> r == s
  {
    match m.progress
    case None => s
    case Some(p) =>
      var pct := Clamp(p);
      var eta := if 0.0 < pct < 100.0 then EtaAt(Elapsed(s, now), pct)
                 else if pct >= 100.0 then Clock(0, 0) else s.eta;
      s.(percent := Shown(pct), eta := eta)
  }

  /** The download stream's `onmessage`. */
  function DownloadMessage(s: Session, m: Msg, now: real): (o: Outcome)
    ensures o.next.subtitleBusy == s.subtitleBusy && o.next.startTime == s.startTime
    ensures o.next.stream == s.stream || o.next.stream == Closed
    ensures s.taskId != "" ==> o.next.taskId == s.taskId
    ensures |s.log| <= MaxLogLines ==> |o.next.log| <= MaxLogLines
  {
    if m.error != "" then
      var t := "任务出错: " + m.error;
      CloseCurrent(Log(s, t, Error).(banner := t, status := "出错", busy := false))
    else
      var s1 := if m.taskId != "" && s.taskId == "" then Log(s.(taskId := m.taskId), "任务ID: " + m.taskId, Info) else s;
      if m.kind == "log" then Outcome(Log(s1, m.line, Info), [])
      else if m.kind == "status" then
        var s2 := DownloadProgress(s1.(status := StageLabel(m.stage, m.status)), m, now);
        if m.status == "finished" then
          CloseCurrent(Log(s2, "任务完成: " + m.filePath, Info)
                        .(percent := Hundred, status := "完成", eta := Clock(0, 0), busy := false))
        else if m.status == "error" then
          CloseCurrent(Log(s2, "任务失败", Error).(busy := false))
        else Outcome(s2, [])
      else if m.event == "end" then CloseCurrent(s1.(busy := false))
      else Outcome(s1, [])
  }

  // ------------------------------------------------- the subtitle stream

  /** The subtitle stream's `onmessage`: it does not record task ids nor
      estimate the remaining time, and completes at 100 percent. */
  function SubtitleMessage(s: Session, m: Msg): (o: Outcome)
    ensures o.next.taskId == s.taskId && o.next.busy == s.busy
    ensures o.next.eta == s.eta && o.next.startTime == s.startTime
    ensures o.next.stream == s.stream || o.next.stream == Closed
  {
    if m.error != "" then
      var t := "字幕任务出错: " + m.error;
      CloseCurrent(Log(s, t, Error).(banner := t, subtitleBusy := false))
    else if m.kind == "log" then Outcome(Log(s, m.line, Info), [])
    else if m.kind == "status" then
      var s1 := s.(status := StageLabel(m.stage, m.status));
      match m.progress
      case None => Outcome(s1, [])
      case Some(p) =>
        var pct := Clamp(p);
        var s2 := s1.(percent := Shown(pct));
        if pct >= 100.0 then CloseCurrent(s2.(subtitleBusy := false)) else Outcome(s2, [])
    else if m.event == "end" then CloseCurrent(s.(subtitleBusy := false))
    else Outcome(s, [])
  }

  // ---------------------------------------------------------- user actions

  /** `downloadMedia`. */
  function StartDownload(s: Session, page: Page, now: real): (o: Outcome)
    ensures o.next.taskId == s.taskId && o.next.subtitleBusy == s.subtitleBusy
    ensures o.effects == [] <==> JsTrim(page.url) == ""
    ensures o.effects != [] ==> o.next.stream == Open(DownloadStream) && o.next.busy && o.next.startTime == Some(now)
  {
    match BuildRequest(page)
    case None => Outcome(s.(banner := "请输入视频链接"), [])
    case Some(req) =>
      var c := CloseCurrent(s);
      var s1 := LogAll(ResetProgress(c.next).(busy := true), req.logs);
      Outcome(s1.(startTime := Some(now), stream := Open(DownloadStream)),
              c.effects + [OpenStream(DownloadStream, req.params)])
  }

  /** The request `downloadSubtitles` opens. */
  function SubtitleParams(url: string, subtitles: string): Params {
    [("url", Text(url)), ("mode", Text("merged")), ("subtitles", Text(subtitles)),
     ("subtitles_only", Text("true")), ("quality", Text("best"))]
  }

  /** `downloadSubtitles`. */
  function StartSubtitleTask(s: Session, url: string, subtitles: string, now: real): (o: Outcome)
    ensures o.next.taskId == s.taskId && o.next.busy == s.busy
    ensures o.effects == [] <==> JsTrim(url) == "" || subtitles == ""
    ensures o.effects != [] ==> o.next.stream == Open(SubtitleStream) && o.next.subtitleBusy && o.next.banner == ""
  {
    var u := JsTrim(url);
    if u == "" then Outcome(s.(banner := "请输入视频链接"), [])
    else if subtitles == "" then Outcome(s.(banner := "请选择字幕语言"), [])
    else
      var c := CloseCurrent(s.(banner := ""));
      var s1 := ResetProgress(c.next).(subtitleBusy := true, startTime := Some(now), stream := Open(SubtitleStream));
      Outcome(Log(s1, "创建字幕任务: " + subtitles, Info),
              c.effects + [OpenStream(SubtitleStream, SubtitleParams(u, subtitles))])
  }

  /** `cancelDownload`, with the reply to the cancel request as input. */
  function CancelTask(s: Session, reply: CancelReply): (o: Outcome)
    ensures o.next.stream == Closed && !o.next.busy
    ensures o.next.taskId == s.taskId && o.next.subtitleBusy == s.subtitleBusy && o.next.banner == s.banner
  {
    var s1 := if s.taskId == "" then s
              else match reply
                   case Acked(body) => Log(s, "取消请求: " + body, Info)
                   case Failed(reason) => Log(s, "取消请求失败: " + reason, Error);
    var c := CloseCurrent(s1);
    Outcome(c.next.(busy := false, status := "已取消", percent := CanceledText, eta := Unknown),
            (if s.taskId == "" then [] else [PostCancel(s.taskId)]) + c.effects)
  }

  /** `clearLogs`: everything but the task id and the banner is reset. */
  function ClearAll(s: Session): (o: Outcome)
    ensures o.next.stream == Closed && !o.next.busy && !o.next.subtitleBusy
    ensures o.next.taskId == s.taskId && o.next.banner == s.banner
  {
    var c := CloseCurrent(s.(log := [], status := "等待下载...", percent := Shown(0.0), eta := Unknown,
                            busy := false, subtitleBusy := false));
    Outcome(Log(c.next.(startTime := None), "已清理所有下载记录和状态", Info), c.effects)
  }

  /** The stream's `onerror`. */
  function StreamError(s: Session): (o: Outcome)
    ensures o.next.stream == Closed && o.next.taskId == s.taskId
    ensures s.stream.Closed? ==> o == Outcome(s, [])
    ensures s.stream == Open(DownloadStream) ==> !o.next.busy && o.next.subtitleBusy == s.subtitleBusy
    ensures s.stream == Open(SubtitleStream) ==> !o.next.subtitleBusy && o.next.busy == s.busy
  {
    match s.stream
    case Closed => Outcome(s, [])
    case Open(DownloadStream) =>
      CloseCurrent(Log(s, "SSE 连接出错或中断", Error)
                    .(banner := ConnectionLost, busy := false, status := "出错"))
    case Open(SubtitleStream) =>
      CloseCurrent(Log(s, "字幕 SSE 连接出错", Error).(banner := ConnectionLost, subtitleBusy := false))
  }

  /** One step. A closed stream delivers nothing, and an empty or
      unparsable message is dropped. */
  function Step(s: Session, e: Event): (o: Outcome)
    ensures s.taskId != "" ==> o.next.taskId == s.taskId
    ensures o.next.taskId != s.taskId ==> e.Message? && s.stream == Open(DownloadStream)
  {
    match e
    case Start(page, now) => StartDownload(s, page, now)
    case StartSubtitles(url, subs, now) => StartSubtitleTask(s, url, subs, now)
    case Message(m, now) =>
      (match s.stream
       case Closed => Outcome(s, [])
       case Open(DownloadStream) => DownloadMessage(s, m, now)
       case Open(SubtitleStream) => SubtitleMessage(s, m))
    case Unreadable => Outcome(s, [])
    case TransportError => StreamError(s)
    case Cancel(reply) => CancelTask(s, reply)
    case Clear => ClearAll(s)
  }

  function Run(s: Session, es: seq<Event>): (r: Session)
    ensures s.taskId != "" ==> r.taskId == s.taskId
    decreases |es|
  {
    if |es| == 0 then s else Run(Step(s, es[0]).next, es[1..])
  }

  // ---------------------------------------------------------- properties

  /** The stream the effects leave behind, or `None` when they close a
      closed stream or open a second one. */
  function Replay(st: Stream, effects: seq<Effect>): Option<Stream>
    decreases |effects|
  {
    if |effects| == 0 then Some(st)
    else match effects[0]
      case CloseStream => if st.Open? then Replay(Closed, effects[1..]) else None
      case OpenStream(k, _) => if st.Closed? then Replay(Open(k), effects[1..]) else None
      case PostCancel(_) => Replay(st, effects[1..])
  }

  /** Logging touches the log alone and keeps it within its cap. */
  lemma LogAllOnlyLogs(s: Session, es: seq<Entry>)
    ensures LogAll(s, es) == s.(log := LogAll(s, es).log)
    ensures |s.log| <= MaxLogLines ==> |LogAll(s, es).log| <= MaxLogLines
    decreases |es|
  {
    if |es| > 0 {
      LogAllOnlyLogs(s.(log := AddLog(s.log, es[0])), es[1..]);
    }
  }

  /** A message either leaves the stream open and asks for nothing, or
      closes it. */
  lemma DownloadMessageStream(s: Session, m: Msg, now: real)
    requires s.stream == Open(DownloadStream)
    ensures var o := DownloadMessage(s, m, now);
            (o.next.stream == s.stream && o.effects == []) || (o.next.stream == Closed && o.effects == [CloseStream])
  {
    if m.error == "" {
      var s1 := if m.taskId != "" && s.taskId == "" then Log(s.(taskId := m.taskId), "任务ID: " + m.taskId, Info) else s;
      assert s1.stream == s.stream;
      if m.kind == "status" {
        var s2 := DownloadProgress(s1.(status := StageLabel(m.stage, m.status)), m, now);
        assert s2.stream == s.stream;
        var o := DownloadMessage(s, m, now);
        if m.status == "finished" || m.status == "error" {
          assert o.next.stream == Closed && o.effects == [CloseStream];
        } else {
          assert o == Outcome(s2, []);
        }
      }
    }
  }

  lemma SubtitleMessageStream(s: Session, m: Msg)
    requires s.stream == Open(SubtitleStream)
    ensures var o := SubtitleMessage(s, m);
            (o.next.stream == s.stream && o.effects == []) || (o.next.stream == Closed && o.effects == [CloseStream])
  {
  }

  lemma StartDownloadStream(s: Session, page: Page, now: real)
    ensures var o := StartDownload(s, page, now);
            if JsTrim(page.url) == "" then o == Outcome(s.(banner := "请输入视频链接"), [])
            else && o.next.stream == Open(DownloadStream) && o.next.busy
                 && o.next.startTime == Some(now) && o.next.taskId == s.taskId
                 && (|s.log| <= MaxLogLines ==> |o.next.log| <= MaxLogLines)
                 && o.effects == (if s.stream.Open? then [CloseStream] else [])
                                 + [OpenStream(DownloadStream, BuildRequest(page).value.params)]
  {
    if JsTrim(page.url) != "" {
      var req := BuildRequest(page).value;
      LogAllOnlyLogs(ResetProgress(CloseCurrent(s).next).(busy := true), req.logs);
    }
  }

  /** Replaying two runs of effects is replaying one after the other. */
  lemma {:induction false} ReplayConcat(st: Stream, a: seq<Effect>, b: seq<Effect>)
    ensures Replay(st, a + b) == match Replay(st, a) case None => None case Some(t) => Replay(t, b)
    decreases |a|
  {
    if |a| > 0 {
      assert (a + b)[1..] == a[1..] + b;
      match a[0]
      case CloseStream => if st.Open? { ReplayConcat(Closed, a[1..], b); }
      case OpenStream(k, _) => if st.Closed? { ReplayConcat(Open(k), a[1..], b); }
      case PostCancel(_) => ReplayConcat(st, a[1..], b);
    } else {
      assert a + b == b;
    }
  }

  /** Closing whatever is open leaves the slot empty. */
  lemma CloseCurrentReplays(s: Session)
    ensures Replay(s.stream, CloseCurrent(s).effects) == Some(Closed)
  {
  }

  lemma StartSubtitleStream(s: Session, url: string, subs: string, now: real)
    ensures var o := StartSubtitleTask(s, url, subs, now);
            Replay(s.stream, o.effects) == Some(o.next.stream)
  {
    if JsTrim(url) != "" && subs != "" {
      var c := CloseCurrent(s.(banner := ""));
      CloseCurrentReplays(s.(banner := ""));
      ReplayConcat(s.stream, c.effects, [OpenStream(SubtitleStream, SubtitleParams(JsTrim(url), subs))]);
    }
  }

  lemma CancelStream(s: Session, reply: CancelReply)
    ensures var o := CancelTask(s, reply);
            Replay(s.stream, o.effects) == Some(o.next.stream)
  {
    var posts: seq<Effect> := if s.taskId == "" then [] else [PostCancel(s.taskId)];
    var closes: seq<Effect> := if s.stream.Open? then [CloseStream] else [];
    if posts != [] {
      assert (posts + closes)[1..] == closes;
    }
  }

  lemma StreamErrorStream(s: Session)
    ensures Replay(s.stream, StreamError(s).effects) == Some(StreamError(s).next.stream)
  {
  }

  lemma ClearStream(s: Session)
    ensures Replay(s.stream, ClearAll(s).effects) == Some(ClearAll(s).next.stream)
  {
  }

  /** The session's stream slot always agrees with the effects it emitted:
      no stream is opened while another is open, and none is closed twice. */
  lemma StepTracksStream(s: Session, e: Event)
    ensures Replay(s.stream, Step(s, e).effects) == Some(Step(s, e).next.stream)
  {
    match e
    case Start(page, now) =>
      StartDownloadStream(s, page, now);
      if JsTrim(page.url) != "" {
        CloseCurrentReplays(s);
        ReplayConcat(s.stream, CloseCurrent(s).effects, [OpenStream(DownloadStream, BuildRequest(page).value.params)]);
      }
    case Message(m, now) =>
      if s.stream == Open(DownloadStream) {
        DownloadMessageStream(s, m, now);
      } else if s.stream == Open(SubtitleStream) {
        SubtitleMessageStream(s, m);
      }
    case StartSubtitles(url, subs, now) =>
      StartSubtitleStream(s, url, subs, now);
    case Unreadable =>
    case TransportError =>
      StreamErrorStream(s);
    case Cancel(reply) =>
      CancelStream(s, reply);
    case Clear =>
      ClearStream(s);
  }

  /** The log never holds more than `MaxLogLines` entries. */
  lemma StepKeepsLogBound(s: Session, e: Event)
    requires |s.log| <= MaxLogLines
    ensures |Step(s, e).next.log| <= MaxLogLines
  {
    match e
    case Start(page, now) =>
      StartDownloadStream(s, page, now);
    case StartSubtitles(url, subs, now) =>
      SubtitleTaskLogBound(s, url, subs, now);
    case Message(m, now) =>
      if s.stream == Open(DownloadStream) {
        DownloadMessageLogBound(s, m, now);
      } else if s.stream == Open(SubtitleStream) {
        SubtitleMessageLogBound(s, m);
      }
    case Unreadable =>
    case TransportError =>
      StreamErrorLogBound(s);
    case Cancel(reply) =>
      CancelLogBound(s, reply);
    case Clear =>
      ClearLogBound(s);
  }

  lemma SubtitleTaskLogBound(s: Session, url: string, subs: string, now: real)
    requires |s.log| <= MaxLogLines
    ensures |StartSubtitleTask(s, url, subs, now).next.log| <= MaxLogLines
  {
  }

  lemma SubtitleMessageLogBound(s: Session, m: Msg)
    requires |s.log| <= MaxLogLines
    ensures |SubtitleMessage(s, m).next.log| <= MaxLogLines
  {
  }

  lemma StreamErrorLogBound(s: Session)
    requires |s.log| <= MaxLogLines
    ensures |StreamError(s).next.log| <= MaxLogLines
  {
  }

  lemma CancelLogBound(s: Session, reply: CancelReply)
    requires |s.log| <= MaxLogLines
    ensures |CancelTask(s, reply).next.log| <= MaxLogLines
  {
  }

  lemma ClearLogBound(s: Session)
    ensures |ClearAll(s).next.log| <= MaxLogLines
  {
  }

  lemma DownloadMessageLogBound(s: Session, m: Msg, now: real)
    requires |s.log| <= MaxLogLines
    ensures |DownloadMessage(s, m, now).next.log| <= MaxLogLines
  {
    if m.error == "" {
      var s1 := if m.taskId != "" && s.taskId == "" then Log(s.(taskId := m.taskId), "任务ID: " + m.taskId, Info) else s;
      assert |s1.log| <= MaxLogLines;
      if m.kind == "status" {
        var s2 := DownloadProgress(s1.(status := StageLabel(m.stage, m.status)), m, now);
        assert s2.log == s1.log;
      }
    }
  }

  lemma DownloadMessageTaskId(s: Session, m: Msg, now: real)
    ensures var n := DownloadMessage(s, m, now).next;
            n.taskId == if m.error == "" && m.taskId != "" && s.taskId == "" then m.taskId else s.taskId
  {
    if m.error == "" {
      var s1 := if m.taskId != "" && s.taskId == "" then Log(s.(taskId := m.taskId), "任务ID: " + m.taskId, Info) else s;
      if m.kind == "status" {
        var s2 := DownloadProgress(s1.(status := StageLabel(m.stage, m.status)), m, now);
        assert s2.taskId == s1.taskId;
      }
    }
  }

  /** Only the first task id of a page session is recorded: once set, the
      id survives every event, clearing and cancelling included; before
      that, only a download-stream message without an error can set it. */
  lemma StepKeepsTaskId(s: Session, e: Event)
    ensures s.taskId != "" ==> Step(s, e).next.taskId == s.taskId
    ensures s.taskId == "" && Step(s, e).next.taskId != "" ==>
              s.stream == Open(DownloadStream) && e.Message? && e.msg.error == ""
              && Step(s, e).next.taskId == e.msg.taskId
  {
    match e
    case Start(page, now) =>
      StartDownloadStream(s, page, now);
    case Message(m, now) =>
      if s.stream == Open(DownloadStream) {
        DownloadMessageTaskId(s, m, now);
      }
    case _ =>
  }

  lemma {:induction false} RunKeepsTaskId(s: Session, es: seq<Event>)
    requires s.taskId != ""
    ensures Run(s, es).taskId == s.taskId
    decreases |es|
  {
    if |es| > 0 {
      StepKeepsTaskId(s, es[0]);
      RunKeepsTaskId(Step(s, es[0]).next, es[1..]);
    }
  }

  /** A closed stream delivers nothing. */
  lemma ClosedStreamIgnored(s: Session, m: Msg, now: real)
    requires s.stream.Closed?
    ensures Step(s, Message(m, now)) == Outcome(s, [])
    ensures Step(s, TransportError) == Outcome(s, [])
  {
  }

  /** An error field wins over every other field of the message: the
      outcome depends on the error text alone, and the stream is closed. */
  lemma ErrorFieldFirst(s: Session, m1: Msg, m2: Msg, now1: real, now2: real)
    requires s.stream.Open? && m1.error != "" && m1.error == m2.error
    ensures Step(s, Message(m1, now1)) == Step(s, Message(m2, now2))
    ensures Step(s, Message(m1, now1)).next.stream.Closed?
    ensures Step(s, Message(m1, now1)).effects == [CloseStream]
    ensures s.stream == Open(DownloadStream) ==>
              !Step(s, Message(m1, now1)).next.busy && Step(s, Message(m1, now1)).next.status == "出错"
  {
  }

  /** A status message with progress shows the clamped value, unless it
      also reports completion, and sets the remaining time: estimated
      strictly between 0 and 100, "00:00" from 100 up, unchanged at 0. */
  lemma ProgressShown(s: Session, m: Msg, now: real)
    requires s.stream == Open(DownloadStream)
    requires m.error == "" && m.kind == "status" && m.progress.Some?
    requires m.status != "finished"
    ensures var n := Step(s, Message(m, now)).next;
            var pct := Clamp(m.progress.value);
            && n.percent == Shown(pct)
            && (0.0 < pct < 100.0 ==> n.eta == EtaAt(Elapsed(s, now), pct))
            && (pct >= 100.0 ==> n.eta == Clock(0, 0))
            && (pct == 0.0 ==> n.eta == s.eta)
  {
    StepDownloadMessage(s, m, now);
    StatusMessageProgress(s, m, now);
  }

  lemma StepDownloadMessage(s: Session, m: Msg, now: real)
    requires s.stream == Open(DownloadStream)
    ensures Step(s, Message(m, now)) == DownloadMessage(s, m, now)
  {
  }

  /** The same facts about `DownloadMessage` itself. */
  lemma StatusMessageProgress(s: Session, m: Msg, now: real)
    requires m.error == "" && m.kind == "status" && m.progress.Some?
    requires m.status != "finished"
    ensures var n := DownloadMessage(s, m, now).next;
            var pct := Clamp(m.progress.value);
            && n.percent == Shown(pct)
            && (0.0 < pct < 100.0 ==> n.eta == EtaAt(Elapsed(s, now), pct))
            && (pct >= 100.0 ==> n.eta == Clock(0, 0))
            && (pct == 0.0 ==> n.eta == s.eta)
  {
    var s1 := if m.taskId != "" && s.taskId == "" then Log(s.(taskId := m.taskId), "任务ID: " + m.taskId, Info) else s;
    var s3 := s1.(status := StageLabel(m.stage, m.status));
    StatusMessageNext(s, m, now);
    ProgressOf(s3, m, now);
    assert s3.eta == s.eta && Elapsed(s3, now) == Elapsed(s, now);
  }

  /** A status message that does not finish shows what its progress part
      computed. */
  lemma StatusMessageNext(s: Session, m: Msg, now: real)
    requires m.error == "" && m.kind == "status" && m.status != "finished"
    ensures var s2 := DownloadProgress((if m.taskId != "" && s.taskId == "" then Log(s.(taskId := m.taskId), "任务ID: " + m.taskId, Info) else s)
                                         .(status := StageLabel(m.stage, m.status)), m, now);
            DownloadMessage(s, m, now).next.percent == s2.percent && DownloadMessage(s, m, now).next.eta == s2.eta
  {
    var s2 := DownloadProgress((if m.taskId != "" && s.taskId == "" then Log(s.(taskId := m.taskId), "任务ID: " + m.taskId, Info) else s)
                                 .(status := StageLabel(m.stage, m.status)), m, now);
    if m.status == "error" {
      assert DownloadMessage(s, m, now) == CloseCurrent(Log(s2, "任务失败", Error).(busy := false));
    } else {
      assert DownloadMessage(s, m, now) == Outcome(s2, []);
    }
  }

  lemma ProgressOf(s: Session, m: Msg, now: real)
    requires m.progress.Some?
    ensures var r := DownloadProgress(s, m, now);
            var pct := Clamp(m.progress.value);
            && r.percent == Shown(pct)
            && (0.0 < pct < 100.0 ==> r.eta == EtaAt(Elapsed(s, now), pct))
            && (pct >= 100.0 ==> r.eta == Clock(0, 0))
            && (pct == 0.0 ==> r.eta == s.eta)
  {
  }

  /** Completion forces "100%", "完成" and "00:00", re-enables the button
      and closes the stream. */
  lemma FinishedCloses(s: Session, m: Msg, now: real)
    requires s.stream == Open(DownloadStream)
    requires m.error == "" && m.kind == "status" && m.status == "finished"
    ensures var o := Step(s, Message(m, now));
            && o.next.percent == Hundred && o.next.status == "完成" && o.next.eta == Clock(0, 0)
            && !o.next.busy && o.next.stream.Closed? && o.effects == [CloseStream]
  {
  }

  /** The end event closes the stream; a second one changes nothing. */
  lemma EndIdempotent(s: Session, m: Msg, now: real)
    requires s.stream.Open?
    requires m.error == "" && m.kind != "log" && m.kind != "status" && m.event == "end"
    ensures var o := Step(s, Message(m, now));
            && o.next.stream.Closed? && o.effects == [CloseStream]
            && (s.stream == Open(DownloadStream) ==> !o.next.busy)
            && (s.stream == Open(SubtitleStream) ==> !o.next.subtitleBusy)
            && Step(o.next, Message(m, now)) == Outcome(o.next, [])
  {
  }

  /** Cancelling posts to the backend exactly when a task id is known, and
      always closes the stream and re-enables the download button. */
  lemma CancelEffects(s: Session, reply: CancelReply, id: string)
    ensures var o := Step(s, Cancel(reply));
            && (PostCancel(id) in o.effects <==> s.taskId != "" && id == s.taskId)
            && o.next.stream.Closed? && !o.next.busy
            && o.next.status == "已取消" && o.next.percent == CanceledText && o.next.eta == Unknown
            && o.next.taskId == s.taskId
  {
  }

  /** A transport error always closes the stream and re-enables the
      button of the task it belonged to. */
  lemma TransportErrorRestores(s: Session)
    requires s.stream.Open?
    ensures var o := Step(s, TransportError);
            && o.next.stream.Closed? && o.effects == [CloseStream] && o.next.banner == ConnectionLost
            && (s.stream == Open(DownloadStream) ==> !o.next.busy && o.next.status == "出错")
            && (s.stream == Open(SubtitleStream) ==> !o.next.subtitleBusy)
  {
  }

  /** Clearing empties the log down to its own notice, closes the stream
      and frees both buttons, but keeps the task id. */
  lemma ClearResets(s: Session)
    ensures var o := Step(s, Clear);
            && o.next.log == [Entry("已清理所有下载记录和状态", Info)]
            && o.next.stream.Closed? && !o.next.busy && !o.next.subtitleBusy
            && o.next.startTime.None? && o.next.taskId == s.taskId
  {
  }
}
