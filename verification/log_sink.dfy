/** The client's log panel (`addLog` in static/main.js): entries are
    appended at the end and the oldest are evicted while more than
    `MaxLogLines` remain; the error and warning counts shown beside the
    panel are computed over the retained entries. */
module LogSink {

  const MaxLogLines := 500

  datatype Level = Info | Warning | Error

  datatype Entry = Entry(text: string, level: Level)

  /** Appends `e` and evicts from the front down to `MaxLogLines`. */
  function AddLog(log: seq<Entry>, e: Entry): (r: seq<Entry>)
    ensures |r| == if |log| + 1 <= MaxLogLines then |log| + 1 else MaxLogLines
    ensures r == (log + [e])[|log| + 1 - |r|..]
  {
    var all := log + [e];
    if |all| > MaxLogLines then all[|all| - MaxLogLines..] else all
  }

  /** The entries `AddLog` drops: the oldest ones. */
  function Evicted(log: seq<Entry>, e: Entry): seq<Entry> {
    (log + [e])[..|log| + 1 - |AddLog(log, e)|]
  }

  /** How many entries have level `lv`. */
  function Count(log: seq<Entry>, lv: Level): (n: nat)
    ensures n <= |log|
  {
    if |log| == 0 then 0
    else Count(log[..|log| - 1], lv) + if log[|log| - 1].level == lv then 1 else 0
  }

  lemma {:induction false} CountConcat(a: seq<Entry>, b: seq<Entry>, lv: Level)
    ensures Count(a + b, lv) == Count(a, lv) + Count(b, lv)
  {
    if |b| > 0 {
      assert (a + b)[..|a + b| - 1] == a + b[..|b| - 1];
      CountConcat(a, b[..|b| - 1], lv);
    } else {
      assert a + b == a;
    }
  }

  /** The log never exceeds its cap, the new entry is always the newest,
      an entry is evicted only when the cap is exceeded, and the evicted
      entries are exactly the oldest ones. */
  lemma AddLogShape(log: seq<Entry>, e: Entry)
    ensures |AddLog(log, e)| <= MaxLogLines
    ensures AddLog(log, e)[|AddLog(log, e)| - 1] == e
    ensures |log| < MaxLogLines ==> AddLog(log, e) == log + [e]
    ensures Evicted(log, e) + AddLog(log, e) == log + [e]
    ensures |log| <= MaxLogLines ==> |Evicted(log, e)| <= 1
  {
  }

  /** The counts move by the new entry and the evicted ones only. */
  lemma AddLogCounts(log: seq<Entry>, e: Entry, lv: Level)
    ensures Count(AddLog(log, e), lv) + Count(Evicted(log, e), lv)
            == Count(log, lv) + (if e.level == lv then 1 else 0)
  {
    var all := log + [e];
    AddLogShape(log, e);
    CountConcat(Evicted(log, e), AddLog(log, e), lv);
    CountConcat(log, [e], lv);
    assert [e][..0] == [];
  }
}
