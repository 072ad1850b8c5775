/** The backend's task store: the `Task` record of service/tasks/models.py,
    the `TaskManager` map of service/tasks/manager.py (with the identical
    copies in tasks.py), cancellation, the worker's skip rule, and the two
    routes of app.py that read or prune the store (`queue_status` and
    `api_tasks_cleanup`). The map is a sequence in insertion order; a
    clock reading is an integer tick passed in by the caller. */
module TaskStore {

  import opened Options
  import opened Sorting

  datatype Status = Queued | Downloading | Merging | Finished | Error | Canceled

  /** The three states no task leaves. */
  predicate Terminal(s: Status) {
    s == Finished || s == Error || s == Canceled
  }

  /** The three states of a task still in flight. */
  predicate Active(s: Status) {
    s == Queued || s == Downloading || s == Merging
  }

  datatype Task = Task(id: string, url: string, createdAt: int, updatedAt: int,
                       status: Status, stage: Option<string>, progress: real, log: seq<string>,
                       mode: string, quality: string, canceled: bool,
                       errorCode: Option<string>, errorMessage: Option<string>)

  /** A task as `Task(id=..., url=..., **kwargs)` builds it: the keyword
      arguments given override the defaults. */
  function NewTask(id: string, url: string, now: int, mode: Option<string>, quality: Option<string>): (t: Task)
    ensures t.id == id && t.url == url && t.createdAt == now && t.updatedAt == now
    ensures t.status == Queued && t.stage.None? && t.progress == 0.0 && t.log == []
    ensures !t.canceled && t.errorCode.None? && t.errorMessage.None?
    ensures t.mode == (if mode.Some? then mode.value else "merged")
    ensures t.quality == (if quality.Some? then quality.value else "best")
  {
    Task(id, url, now, now, Queued, None, 0.0, [],
         match mode case Some(m) => m case None => "merged",
         match quality case Some(q) => q case None => "best",
         false, None, None)
  }

  const LogWindow := 200

  /** `to_dict`: the task's fields, with only the last 200 log lines. */
  function ToDict(t: Task): (d: Task)
    ensures |d.log| <= LogWindow && |d.log| <= |t.log|
    ensures d.log == t.log[|t.log| - |d.log|..]
    ensures |t.log| <= LogWindow ==> d == t
    ensures |t.log| > LogWindow ==> |d.log| == LogWindow
    ensures d.(log := t.log) == t
  {
    if |t.log| > LogWindow then t.(log := t.log[|t.log| - LogWindow..]) else t
  }

  // ---------------------------------------------------------------- store

  datatype Manager = Manager(tasks: seq<Task>, queue: seq<string>)

  predicate UniqueIds(ts: seq<Task>) {
    forall i, j :: 0 <= i < j < |ts| ==> ts[i].id != ts[j].id
  }

  predicate HasId(ts: seq<Task>, id: string) {
    exists i :: 0 <= i < |ts| && ts[i].id == id
  }

  /** `tasks.get(id)`. */
  function GetTask(ts: seq<Task>, id: string): (r: Option<Task>)
    ensures r.Some? <==> HasId(ts, id)
    ensures r.Some? ==> r.value in ts && r.value.id == id
  {
    if |ts| == 0 then None
    else if ts[0].id == id then Some(ts[0])
    else
      var r := GetTask(ts[1..], id);
      assert forall i :: 0 <= i < |ts| - 1 ==> ts[1..][i] == ts[i + 1];
      r
  }

  /** `tasks[t.id] = t`: an existing entry is replaced in place, a new one
      goes last. */
  function Put(ts: seq<Task>, t: Task): (r: seq<Task>)
    ensures HasId(ts, t.id) ==> |r| == |ts|
    ensures !HasId(ts, t.id) ==> r == ts + [t]
    ensures forall i :: 0 <= i < |ts| && ts[i].id != t.id ==> r[i] == ts[i]
    ensures forall i :: 0 <= i < |ts| && ts[i].id == t.id ==> r[i] == t
  {
    if HasId(ts, t.id) then seq(|ts|, i requires 0 <= i < |ts| => if ts[i].id == t.id then t else ts[i])
    else ts + [t]
  }

  /** `add_task`: stores a new queued task under `id` and enqueues the id.
      The id is a fresh UUID in the source and a parameter here. */
  function AddTask(m: Manager, id: string, url: string, now: int,
                   mode: Option<string>, quality: Option<string>): (r: (Manager, Task))
    ensures r.0.queue == m.queue + [id]
    ensures r.1 == NewTask(id, url, now, mode, quality)
    ensures GetTask(r.0.tasks, id) == Some(r.1)
  {
    var t := NewTask(id, url, now, mode, quality);
    var ts := Put(m.tasks, t);
    PutThenGet(m.tasks, t);
    (Manager(ts, m.queue + [id]), t)
  }

  lemma PutThenGet(ts: seq<Task>, t: Task)
    ensures GetTask(Put(ts, t), t.id) == Some(t)
  {
    var r := Put(ts, t);
    if HasId(ts, t.id) {
      var i :| 0 <= i < |ts| && ts[i].id == t.id && forall j :: 0 <= j < i ==> ts[j].id != t.id by {
        FirstWithId(ts, t.id);
      }
      GetFirst(r, t.id, i);
    } else {
      GetFirst(r, t.id, |ts|);
    }
  }

  /** Some position holds the first task with a present id. */
  lemma {:induction false} FirstWithId(ts: seq<Task>, id: string)
    requires HasId(ts, id)
    ensures exists i :: 0 <= i < |ts| && ts[i].id == id && forall j :: 0 <= j < i ==> ts[j].id != id
  {
    if ts[0].id != id {
      var k :| 0 <= k < |ts| && ts[k].id == id;
      assert ts[1..][k - 1].id == id;
      FirstWithId(ts[1..], id);
      var i :| 0 <= i < |ts[1..]| && ts[1..][i].id == id && forall j :: 0 <= j < i ==> ts[1..][j].id != id;
      assert forall j :: 1 <= j < i + 1 ==> ts[j] == ts[1..][j - 1];
      assert ts[i + 1].id == id;
    }
  }

  /** The lookup finds the first task with the id. */
  lemma {:induction false} GetFirst(ts: seq<Task>, id: string, i: int)
    requires 0 <= i < |ts| && ts[i].id == id
    requires forall j :: 0 <= j < i ==> ts[j].id != id
    ensures GetTask(ts, id) == Some(ts[i])
  {
    if i > 0 {
      GetFirst(ts[1..], id, i - 1);
    }
  }

  /** With a fresh id, adding stores exactly one more task, keeps the
      others where they were, and keeps ids unique. */
  lemma AddTaskFresh(m: Manager, id: string, url: string, now: int,
                     mode: Option<string>, quality: Option<string>)
    requires UniqueIds(m.tasks) && !HasId(m.tasks, id)
    ensures var ts := AddTask(m, id, url, now, mode, quality).0.tasks;
            && ts == m.tasks + [NewTask(id, url, now, mode, quality)]
            && UniqueIds(ts)
  {
  }

  /** Looking up changes nothing, and finds the task stored under the id. */
  lemma GetTaskFinds(ts: seq<Task>, i: int)
    requires UniqueIds(ts) && 0 <= i < |ts|
    ensures GetTask(ts, ts[i].id) == Some(ts[i])
  {
    forall j | 0 <= j < i ensures ts[j].id != ts[i].id {
    }
    GetFirst(ts, ts[i].id, i);
  }

  // --------------------------------------------------------------- updates

  /** The keyword arguments of `_update_task`: a field is set when present. */
  datatype Changes = Changes(status: Option<Status>, stage: Option<Option<string>>, progress: Option<real>,
                             errorCode: Option<Option<string>>, errorMessage: Option<Option<string>>)

  /** `_update_task(task, **fields)`: the named fields and `updated_at`. */
  function UpdateTask(t: Task, c: Changes, now: int): (r: Task)
    ensures r.updatedAt == now
    ensures r.status == (if c.status.Some? then c.status.value else t.status)
    ensures r.stage == (if c.stage.Some? then c.stage.value else t.stage)
    ensures r.progress == (if c.progress.Some? then c.progress.value else t.progress)
    ensures r.errorCode == (if c.errorCode.Some? then c.errorCode.value else t.errorCode)
    ensures r.errorMessage == (if c.errorMessage.Some? then c.errorMessage.value else t.errorMessage)
    ensures r.(updatedAt := t.updatedAt, status := t.status, stage := t.stage, progress := t.progress,
               errorCode := t.errorCode, errorMessage := t.errorMessage) == t
  {
    var t1 := match c.status case Some(v) => t.(status := v) case None => t;
    var t2 := match c.stage case Some(v) => t1.(stage := v) case None => t1;
    var t3 := match c.progress case Some(v) => t2.(progress := v) case None => t2;
    var t4 := match c.errorCode case Some(v) => t3.(errorCode := v) case None => t3;
    var t5 := match c.errorMessage case Some(v) => t4.(errorMessage := v) case None => t4;
    t5.(updatedAt := now)
  }

  /** An update with no named fields only moves `updated_at`. */
  lemma UpdateNothing(t: Task, now: int)
    ensures UpdateTask(t, Changes(None, None, None, None, None), now) == t.(updatedAt := now)
  {
  }

  // --------------------------------------------------------------- cleanup

  /** The tasks whose status satisfies `keep`, in order. */
  function Filter(ts: seq<Task>, keep: Status -> bool): (r: seq<Task>)
    ensures |r| <= |ts|
    ensures forall t :: t in r <==> t in ts && keep(t.status)
  {
    if |ts| == 0 then []
    else
      var init := ts[..|ts| - 1];
      var t := ts[|ts| - 1];
      assert ts == init + [t];
      Filter(init, keep) + if keep(t.status) then [t] else []
  }

  /** How many tasks are terminal. */
  function CountTerminal(ts: seq<Task>): (n: nat)
    ensures n <= |ts|
  {
    if |ts| == 0 then 0
    else CountTerminal(ts[..|ts| - 1]) + if Terminal(ts[|ts| - 1].status) then 1 else 0
  }

  /** `cleanup_finished_tasks`: removes every terminal task and returns
      how many it removed. */
  function CleanupFinished(m: Manager): (r: (Manager, nat))
    ensures r.0.queue == m.queue
    ensures forall t :: t in r.0.tasks <==> t in m.tasks && !Terminal(t.status)
    ensures r.1 + |r.0.tasks| == |m.tasks|
  {
    var kept := Filter(m.tasks, s => !Terminal(s));
    FilterCount(m.tasks);
    (m.(tasks := kept), |m.tasks| - |kept|)
  }

  lemma {:induction false} FilterCount(ts: seq<Task>)
    ensures |Filter(ts, s => !Terminal(s))| + CountTerminal(ts) == |ts|
  {
    if |ts| > 0 {
      FilterCount(ts[..|ts| - 1]);
    }
  }

  /** The count returned is the number of terminal tasks. */
  lemma CleanupFinishedCount(m: Manager)
    ensures CleanupFinished(m).1 == CountTerminal(m.tasks)
  {
    FilterCount(m.tasks);
  }

  /** After cleanup no terminal task is left, and a second cleanup removes
      nothing. */
  lemma CleanupFinishedIdempotent(m: Manager)
    ensures CleanupFinished(CleanupFinished(m).0) == (CleanupFinished(m).0, 0)
  {
    var k := CleanupFinished(m).0;
    FilterAll(k.tasks, s => !Terminal(s));
  }

  /** Filtering with a test every status passes keeps everything. */
  lemma {:induction false} FilterAll(ts: seq<Task>, keep: Status -> bool)
    requires forall i :: 0 <= i < |ts| ==> keep(ts[i].status)
    ensures Filter(ts, keep) == ts
  {
    if |ts| > 0 {
      FilterAll(ts[..|ts| - 1], keep);
      assert ts == ts[..|ts| - 1] + [ts[|ts| - 1]];
    }
  }

  // ---------------------------------------------------------- cancel_task

  const CancelLine := "[canceled] 标记取消"

  /** The task as `cancel_task` leaves it. */
  function CancelOne(t: Task): (r: Task)
    ensures Terminal(t.status) ==> r == t
    ensures !Terminal(t.status) ==>
              r == t.(canceled := true, status := Canceled, stage := None, log := t.log + [CancelLine])
  {
    if Terminal(t.status) then t
    else t.(canceled := true, status := Canceled, stage := None, log := t.log + [CancelLine])
  }

  /** `cancel_task(id)` on the module's manager, if any. Killing the
      task's process is left to the process table, which is not modelled. */
  function CancelTask(mgr: Option<Manager>, id: string): (r: (bool, Option<Manager>))
    ensures !r.0 <==> mgr.None? || !HasId(mgr.value.tasks, id)
    ensures !r.0 ==> r.1 == mgr
    ensures r.1.Some? <==> mgr.Some?
  {
    match mgr
    case None => (false, None)
    case Some(m) =>
      match GetTask(m.tasks, id)
      case None => (false, mgr)
      case Some(t) => (true, Some(m.(tasks := Put(m.tasks, CancelOne(t)))))
  }

  /** Cancelling a known task leaves it terminal; a task already terminal
      is untouched; every other task and the queue stay as they were. */
  lemma CancelTaskEffect(m: Manager, i: int)
    requires UniqueIds(m.tasks) && 0 <= i < |m.tasks|
    ensures var r := CancelTask(Some(m), m.tasks[i].id);
            && r.0 && r.1.Some? && r.1.value.queue == m.queue
            && |r.1.value.tasks| == |m.tasks|
            && r.1.value.tasks[i] == CancelOne(m.tasks[i])
            && Terminal(r.1.value.tasks[i].status)
            && (forall j :: 0 <= j < |m.tasks| && j != i ==> r.1.value.tasks[j] == m.tasks[j])
  {
    GetTaskFinds(m.tasks, i);
    var ts := Put(m.tasks, CancelOne(m.tasks[i]));
    forall j | 0 <= j < |m.tasks| && j != i ensures ts[j] == m.tasks[j] {
      if j < i {
        assert m.tasks[j].id != m.tasks[i].id;
      } else {
        assert m.tasks[i].id != m.tasks[j].id;
      }
    }
  }

  /** Cancelling twice is cancelling once: the second call appends no
      second log line. */
  lemma CancelTwice(t: Task)
    ensures CancelOne(CancelOne(t)) == CancelOne(t)
  {
  }

  // ------------------------------------------------------------ singleton

  /** `init_task_manager`: the first manager built is kept for good. */
  function InitManager(slot: Option<Manager>, made: Manager): (r: Manager)
    ensures slot.Some? ==> r == slot.value
    ensures slot.None? ==> r == made
  {
    match slot case Some(m) => m case None => made
  }

  lemma InitIdempotent(slot: Option<Manager>, a: Manager, b: Manager)
    ensures InitManager(Some(InitManager(slot, a)), b) == InitManager(slot, a)
  {
  }

  // --------------------------------------------------------------- worker

  /** What a worker does with the next queued id: nothing when the task is
      gone or was cancelled, else it runs the task. */
  function NextJob(m: Manager): (r: (Option<Task>, Manager))
    requires |m.queue| > 0
    ensures r.1 == m.(queue := m.queue[1..])
    ensures r.0.Some? ==> r.0 == GetTask(m.tasks, m.queue[0])
    ensures r.0.Some? ==> r.0.value.status != Canceled && !r.0.value.canceled
    ensures r.0.None? ==> var t := GetTask(m.tasks, m.queue[0]);
                         t.None? || t.value.status == Canceled || t.value.canceled
  {
    var rest := m.(queue := m.queue[1..]);
    match GetTask(m.tasks, m.queue[0])
    case None => (None, rest)
    case Some(t) => if t.status == Canceled || t.canceled then (None, rest) else (Some(t), rest)
  }

  /** A task cancelled before a worker reaches it is never run. */
  lemma CanceledNeverRuns(m: Manager, i: int)
    requires UniqueIds(m.tasks) && 0 <= i < |m.tasks| && |m.queue| > 0
    requires m.queue[0] == m.tasks[i].id && !Terminal(m.tasks[i].status)
    ensures NextJob(CancelTask(Some(m), m.tasks[i].id).1.value).0.None?
  {
    CancelTaskEffect(m, i);
    var m2 := CancelTask(Some(m), m.tasks[i].id).1.value;
    GetTaskFinds(m2.tasks, i) by {
      forall a, b | 0 <= a < b < |m2.tasks| ensures m2.tasks[a].id != m2.tasks[b].id {
        assert m2.tasks[a].id == m.tasks[a].id && m2.tasks[b].id == m.tasks[b].id;
      }
    }
  }

  // -------------------------------------------------- queue_status ordering

  /** `status_order`: running first, then queued, then the terminal states. */
  function StatusRank(s: Status): int {
    match s
    case Downloading => 0
    case Merging => 1
    case Queued => 2
    case Finished => 3
    case Error => 4
    case Canceled => 5
  }

  function TaskRank(t: Task): int {
    StatusRank(t.status)
  }

  /** `list_tasks`: every task's dictionary, in store order. */
  function Listed(m: Manager): (r: seq<Task>)
    ensures |r| == |m.tasks|
    ensures forall i :: 0 <= i < |r| ==> r[i] == ToDict(m.tasks[i])
  {
    seq(|m.tasks|, i requires 0 <= i < |m.tasks| => ToDict(m.tasks[i]))
  }

  /** `queue_status`: the listed tasks stably sorted by status rank. */
  function QueueStatus(m: Manager): (r: seq<Task>)
    ensures |r| == |m.tasks|
  {
    SortBy(Listed(m), TaskRank)
  }

  /** The listing is a reordering of the tasks' dictionaries, sorted by
      rank, with tasks of one status in store order. */
  lemma QueueStatusOrder(m: Manager, s: Status)
    ensures var r := QueueStatus(m);
            && multiset(r) == multiset(Listed(m))
            && SortedBy(r, TaskRank)
            && WithKey(r, TaskRank, StatusRank(s)) == WithKey(Listed(m), TaskRank, StatusRank(s))
  {
    SortByStable(Listed(m), TaskRank, StatusRank(s));
  }

  /** Every active task is listed before every terminal one. */
  lemma QueueStatusActiveFirst(m: Manager, i: int, j: int)
    requires 0 <= i < |QueueStatus(m)| && 0 <= j < |QueueStatus(m)|
    requires Active(QueueStatus(m)[i].status) && Terminal(QueueStatus(m)[j].status)
    ensures i < j
  {
    var r := QueueStatus(m);
    assert r == SortBy(Listed(m), TaskRank);
    ActiveRanksFirst(r[i].status, r[j].status);
    SortedIndexOrder(r, TaskRank, i, j);
  }

  lemma SortedIndexOrder<T>(r: seq<T>, key: T -> int, i: int, j: int)
    requires SortedBy(r, key) && 0 <= i < |r| && 0 <= j < |r| && key(r[i]) < key(r[j])
    ensures i < j
  {
  }

  lemma ActiveRanksFirst(a: Status, b: Status)
    requires Active(a) && Terminal(b)
    ensures StatusRank(a) < StatusRank(b)
  {
  }

  // --------------------------------------------------- api_tasks_cleanup

  datatype CleanupReply = CleanupReply(removed: nat, removedActive: nat, maxKeep: int, removeActive: bool)

  function CreatedKey(t: Task): int {
    t.createdAt
  }

  /** The terminal tasks `api_tasks_cleanup` drops: all of them when
      `maxKeep <= 0`, else the oldest beyond the newest `maxKeep`. */
  function Dropped(ts: seq<Task>, maxKeep: int): (d: seq<Task>)
    ensures forall t :: t in d ==> t in ts && Terminal(t.status)
  {
    var fin := Filter(ts, Terminal);
    if maxKeep <= 0 then fin
    else if |fin| > maxKeep then
      var sorted := SortBy(fin, CreatedKey);
      var d := sorted[..|fin| - maxKeep];
      assert forall t :: t in d ==> t in multiset(sorted);
      d
    else []
  }

  function Ids(ts: seq<Task>): set<string> {
    set t | t in ts :: t.id
  }

  /** `api_tasks_cleanup(max_keep, remove_active)`. */
  function ApiCleanup(m: Manager, maxKeep: int, removeActive: bool): (r: (Manager, CleanupReply))
    ensures r.0.queue == m.queue
    ensures r.1.maxKeep == maxKeep
    ensures r.1.removeActive == (removeActive || maxKeep <= 0)
  {
    var all := removeActive || maxKeep <= 0;
    var d := Dropped(m.tasks, maxKeep);
    var gone := Ids(d);
    var kept1 := KeepIds(m.tasks, gone);
    var active := if all then Filter(kept1, Active) else [];
    var kept2 := if all then Filter(kept1, s => !Active(s)) else kept1;
    (m.(tasks := kept2), CleanupReply(|d|, |active|, maxKeep, all))
  }

  /** The route's outcome as the code stands: a reply, or no reply at all. */
  datatype Cleanup = Replied(next: Manager, reply: CleanupReply) | Hung

  /** `api_tasks_cleanup` as written. The route holds `tasks_lock` while it
      calls the module-level `cancel_task` for each active task, and
      `cancel_task` looks the task up through `get_task`, which takes the
      same non-reentrant lock again: the first active task left after the
      terminal sweep blocks the request for good, with the lock held.
      `ApiCleanup` is the behaviour the route evidently intends. */
  function ApiCleanupAsWritten(m: Manager, maxKeep: int, removeActive: bool): (r: Cleanup)
    ensures r.Hung? <==> (removeActive || maxKeep <= 0) &&
                         exists t :: t in m.tasks && Active(t.status) && t.id !in Ids(Dropped(m.tasks, maxKeep))
    ensures r.Replied? ==> (r.next, r.reply) == ApiCleanup(m, maxKeep, removeActive) && r.reply.removedActive == 0
  {
    var all := removeActive || maxKeep <= 0;
    var kept1 := KeepIds(m.tasks, Ids(Dropped(m.tasks, maxKeep)));
    if all && Filter(kept1, Active) != [] then
      assert Filter(kept1, Active)[0] in Filter(kept1, Active);
      Hung
    else
      var c := ApiCleanup(m, maxKeep, removeActive);
      Replied(c.0, c.1)
  }

  /** One queued task and `max_keep` 0 is enough: the corrected route
      empties the store and counts the task as removed, the written one
      never answers. */
  lemma {:induction false} CleanupHangsOnQueued(t: Task)
    requires t.status == Queued
    ensures ApiCleanupAsWritten(Manager([t], []), 0, false).Hung?
    ensures ApiCleanup(Manager([t], []), 0, false).0.tasks == []
    ensures ApiCleanup(Manager([t], []), 0, false).1.removedActive == 1
  {
    var m := Manager([t], []);
    assert Filter([t], Terminal) == Filter([], Terminal) + [];
    assert Dropped(m.tasks, 0) == [];
    assert Ids([]) == {};
    assert KeepIds([t], {}) == [t] by {
      assert [t][..0] == [];
    }
    assert Filter([t], Active) == Filter([], Active) + [t];
    assert Filter([t], s => !Active(s)) == Filter([], s => !Active(s)) + [];
  }

  /** The tasks whose id is not in `gone`, in order. */
  function KeepIds(ts: seq<Task>, gone: set<string>): (r: seq<Task>)
    ensures forall t :: t in r <==> t in ts && t.id !in gone
  {
    if |ts| == 0 then []
    else
      var init := ts[..|ts| - 1];
      var t := ts[|ts| - 1];
      assert ts == init + [t];
      KeepIds(init, gone) + if t.id !in gone then [t] else []
  }

  lemma {:induction false} FilterNone(ts: seq<Task>, keep: Status -> bool)
    requires forall i :: 0 <= i < |ts| ==> !keep(ts[i].status)
    ensures Filter(ts, keep) == []
  {
    if |ts| > 0 {
      FilterNone(ts[..|ts| - 1], keep);
    }
  }

  /** With `max_keep <= 0` the store is emptied: every task is terminal or
      active, and both kinds go. */
  lemma CleanupAllEmpties(m: Manager, removeActive: bool, maxKeep: int)
    requires maxKeep <= 0
    ensures ApiCleanup(m, maxKeep, removeActive).0.tasks == []
    ensures ApiCleanup(m, maxKeep, removeActive).1.removed == CountTerminal(m.tasks)
  {
    var d := Dropped(m.tasks, maxKeep);
    var kept1 := KeepIds(m.tasks, Ids(d));
    forall i | 0 <= i < |kept1| ensures Active(kept1[i].status) {
      var t := kept1[i];
      assert t in kept1;
      assert t in m.tasks && t.id !in Ids(d);
      assert t !in d;
    }
    FilterNone(kept1, s => !Active(s));
    FilterTerminalCount(m.tasks);
  }

  lemma {:induction false} FilterTerminalCount(ts: seq<Task>)
    ensures |Filter(ts, Terminal)| == CountTerminal(ts)
  {
    if |ts| > 0 {
      FilterTerminalCount(ts[..|ts| - 1]);
    }
  }

  /** The number reported removed is the surplus of terminal tasks over
      `max_keep`. */
  lemma CleanupRemovedCount(m: Manager, maxKeep: int, removeActive: bool)
    requires maxKeep > 0
    ensures ApiCleanup(m, maxKeep, removeActive).1.removed
            == if CountTerminal(m.tasks) > maxKeep then CountTerminal(m.tasks) - maxKeep else 0
  {
    FilterTerminalCount(m.tasks);
  }

  /** Active tasks stay unless their removal was asked for, in which case
      only terminal tasks remain. */
  lemma CleanupActive(m: Manager, maxKeep: int, removeActive: bool)
    requires UniqueIds(m.tasks) && maxKeep > 0
    ensures var r := ApiCleanup(m, maxKeep, removeActive);
            && (!removeActive ==> forall t :: t in m.tasks && Active(t.status) ==> t in r.0.tasks)
            && (removeActive ==> forall t :: t in r.0.tasks ==> Terminal(t.status))
  {
    var r := ApiCleanup(m, maxKeep, removeActive);
    var d := Dropped(m.tasks, maxKeep);
    forall t | t in m.tasks && Active(t.status) && !removeActive ensures t in r.0.tasks {
      forall u | u in d ensures u.id != t.id {
        IdDetermines(m.tasks, u, t);
      }
    }
  }

  /** In a store with unique ids, the id determines the task. */
  lemma IdDetermines(ts: seq<Task>, a: Task, b: Task)
    requires UniqueIds(ts) && a in ts && b in ts
    ensures a.id == b.id ==> a == b
  {
    var i :| 0 <= i < |ts| && ts[i] == a;
    var j :| 0 <= j < |ts| && ts[j] == b;
    assert i < j ==> ts[i].id != ts[j].id;
    assert j < i ==> ts[j].id != ts[i].id;
  }

  /** A value in `s` but not in its first `cut` elements sits at or after
      `cut`. */
  lemma InSuffix<T>(s: seq<T>, cut: int, x: T)
    requires 0 <= cut <= |s| && x in s
    ensures x in s[..cut] || exists k :: cut <= k < |s| && s[k] == x
  {
    var k :| 0 <= k < |s| && s[k] == x;
    if k < cut {
      assert s[..cut][k] == x;
    }
  }

  /** A task the cleanup keeps was in the store, and its id was not among
      those dropped. */
  lemma CleanupKeeps(m: Manager, maxKeep: int, removeActive: bool, t: Task)
    requires t in ApiCleanup(m, maxKeep, removeActive).0.tasks
    ensures t in m.tasks && t.id !in Ids(Dropped(m.tasks, maxKeep))
  {
  }

  /** In a sequence sorted by creation time, a value outside the first
      `cut` elements is no older than any value inside them. */
  lemma OutsidePrefixNewer(sorted: seq<Task>, cut: int, t: Task, u: Task)
    requires SortedBy(sorted, CreatedKey) && 0 <= cut <= |sorted|
    requires t in sorted && t !in sorted[..cut] && u in sorted[..cut]
    ensures u.createdAt <= t.createdAt
  {
    InSuffix(sorted, cut, t);
    var k :| cut <= k < |sorted| && sorted[k] == t;
    var l :| 0 <= l < cut && sorted[..cut][l] == u;
    assert sorted[l] == u;
    assert CreatedKey(sorted[l]) <= CreatedKey(sorted[k]);
  }

  /** Every terminal task kept is no older than every one dropped. */
  lemma CleanupKeepsNewest(m: Manager, maxKeep: int, removeActive: bool, t: Task, u: Task)
    requires maxKeep > 0
    requires t in ApiCleanup(m, maxKeep, removeActive).0.tasks && Terminal(t.status)
    requires u in Dropped(m.tasks, maxKeep)
    ensures u.createdAt <= t.createdAt
  {
    CleanupKeeps(m, maxKeep, removeActive, t);
    assert t !in Dropped(m.tasks, maxKeep);
    DroppedNewer(m.tasks, maxKeep, t, u);
  }

  /** A terminal task the sweep does not drop is no older than one it does. */
  lemma DroppedNewer(ts: seq<Task>, maxKeep: int, t: Task, u: Task)
    requires maxKeep > 0
    requires t in ts && Terminal(t.status) && t !in Dropped(ts, maxKeep)
    requires u in Dropped(ts, maxKeep)
    ensures u.createdAt <= t.createdAt
  {
    var fin := Filter(ts, Terminal);
    var sorted := SortBy(fin, CreatedKey);
    var cut := |fin| - maxKeep;
    assert |fin| > maxKeep;
    assert Dropped(ts, maxKeep) == sorted[..cut];
    assert t in multiset(sorted);
    OutsidePrefixNewer(sorted, cut, t, u);
  }
}
