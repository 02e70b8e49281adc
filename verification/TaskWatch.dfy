/** How a coding task's result becomes durable (control-plane/internal/api/taskwatch.go,
    control-plane/internal/runtime/client.go, control-plane/internal/api/v1_tasks.go). */
module TaskWatch {
  import opened Common
  import opened Protocol
  import opened TaskLog
  import TaskStream
  import opened Rows

  // --- reading the stream -------------------------------------------------------------------

  /** What the decoder makes of the next piece of the stream: an event, a `done` event whose
      data does not decode, or bytes that are no event at all. */
  datatype Frame = Good(body: Body) | BadDone | Broken

  predicate Terminal(f: Frame) {
    f.BadDone? || f.Broken? || f.body.Done?
  }

  /** The result of the first terminal frame, if it carries one. */
  function Reported(frames: seq<Frame>): Option<TaskResult> {
    if frames == [] then None
    else if !Terminal(frames[0]) then Reported(frames[1..])
    else if frames[0].Good? then Some(frames[0].body.result) else None
  }

  function Frames(evs: seq<Event>): seq<Frame> {
    seq(|evs|, i requires 0 <= i < |evs| => Good(evs[i].body))
  }

  /** A result is reported exactly when it is in a frame before which nothing was terminal. */
  lemma {:induction false} ReportedIff(frames: seq<Frame>, res: TaskResult)
    ensures Reported(frames) == Some(res) <==>
      exists i :: 0 <= i < |frames| && frames[i] == Good(Done(res)) && forall j :: 0 <= j < i ==> !Terminal(frames[j])
    decreases |frames|
  {
    if frames != [] {
      var rest := frames[1..];
      ReportedIff(rest, res);
      if Terminal(frames[0]) {
        assert Reported(frames) == Some(res) ==> frames[0] == Good(Done(res));
      } else {
        if i :| 0 <= i < |rest| && rest[i] == Good(Done(res)) && forall j :: 0 <= j < i ==> !Terminal(rest[j]) {
          assert frames[i + 1] == Good(Done(res));
          assert forall j :: 0 <= j < i + 1 ==> !Terminal(frames[j]) by {
            assert forall j :: 0 < j < i + 1 ==> frames[j] == rest[j - 1];
          }
        }
        if i :| 0 <= i < |frames| && frames[i] == Good(Done(res)) && forall j :: 0 <= j < i ==> !Terminal(frames[j]) {
          assert rest[i - 1] == Good(Done(res));
          assert forall j :: 0 <= j < i - 1 ==> rest[j] == frames[j + 1];
        }
      }
    }
  }

  /** For every interleaving of the task with a watcher reading from the start: the watcher has
      the result the task finished with exactly when its reading reached the terminal event. */
  lemma {:induction false} WatcherGetsResultIff(steps: seq<TaskStream.Step>, r: nat)
    requires var s := TaskStream.Run(TaskStream.Init(), steps); r < |s.readers| && s.readers[r].since == 0
    ensures var s := TaskStream.Run(TaskStream.Init(), steps);
      && (Reported(Frames(s.readers[r].delivered)).Some? <==> s.readers[r].at.SawDone?)
      && (s.readers[r].at.SawDone? ==>
            !s.writer.Running? && Reported(Frames(s.readers[r].delivered)) == Some(s.writer.res))
  {
    var s := TaskStream.Run(TaskStream.Init(), steps);
    TaskStream.RunInv(TaskStream.Init(), steps);
    var evs := s.readers[r].delivered;
    assert TaskStream.ReaderInv(s.log, s.readers[r]);
    if s.readers[r].at.SawDone? {
      assert evs == s.log.events[0..|s.log.events|] == s.log.events;
      assert s.log.events[|evs| - 1].body.Done?;
      FirstDone(evs, s.writer.res);
    } else {
      NoDone(evs);
    }
  }

  lemma {:induction false} FirstDone(evs: seq<Event>, res: TaskResult)
    requires EndsWith(evs, res)
    ensures Reported(Frames(evs)) == Some(res)
  {
    var frames, last := Frames(evs), |evs| - 1;
    assert frames[last] == Good(Done(res));
    assert forall j :: 0 <= j < last ==> frames[j] == Good(evs[..last][j].body);
    ReportedIff(frames, res);
  }

  lemma {:induction false} NoDone(evs: seq<Event>)
    requires !HasDone(evs)
    ensures Reported(Frames(evs)) == None
  {
    var frames := Frames(evs);
    assert forall i :: 0 <= i < |frames| ==> frames[i] == Good(evs[i].body);
    if Reported(frames).Some? {
      ReportedIff(frames, Reported(frames).value);
    }
  }

  // --- one watcher --------------------------------------------------------------------------

  const ATTEMPTS := 3
  const UNREACHABLE := "task watcher could not reach runtimed"
  const NO_TERMINAL := "task event stream ended without a terminal event"
  const INTERRUPTED :=
    "task interrupted by a sandboxd restart; the sandbox was unavailable to resume or report it"

  function FailedResult(task: string, reason: string, msg: string): TaskResult {
    TaskResult(task, TaskFailed, reason, msg, [], "", false, "", "", "")
  }

  /** The answers to the first three tries to open the stream, and whether the watcher's
      deadline passes in the wait after a refusal. */
  datatype Try = Opened | Refused(deadline: bool)

  datatype Verdict = Store(res: TaskResult) | LeftRunning

  /** What a watcher decides: the reported result, a failure, or, only if its deadline passes
      between two tries, nothing. */
  function Judge(task: string, tries: seq<Try>, frames: seq<Frame>): Verdict
    requires |tries| == ATTEMPTS
  {
    if tries[0].Refused? && tries[0].deadline then LeftRunning
    else if tries[0].Refused? && tries[1].Refused? && tries[1].deadline then LeftRunning
    else if tries[0].Refused? && tries[1].Refused? && tries[2].Refused? then
      Store(FailedResult(task, "sandbox_unavailable", UNREACHABLE))
    else
      match Reported(frames)
      case Some(res) => Store(res)
      case None => Store(FailedResult(task, "internal", NO_TERMINAL))
  }

  /** A watcher gives up without a word exactly if its deadline passes between two tries; it reports
      that it could not reach the sandbox exactly after three refusals; and otherwise what the first
      terminal frame carries, or that there was none with a result. */
  lemma {:induction false} WatcherSays(task: string, tries: seq<Try>, frames: seq<Frame>)
    requires |tries| == ATTEMPTS
    ensures var v := Judge(task, tries, frames);
      var late := tries[0] == Refused(true) || (tries[0].Refused? && tries[1] == Refused(true));
      var refused := tries[0].Refused? && tries[1].Refused? && tries[2].Refused?;
      && (v == LeftRunning <==> late)
      && (!late && refused ==>
            && v.Store? && v.res.id == task && v.res.status == TaskFailed
            && v.res.failureReason == "sandbox_unavailable"
            && v.res.errorMessage == "task watcher could not reach runtimed")
      && (!late && !refused && Reported(frames).None? ==>
            && v.Store? && v.res.id == task && v.res.status == TaskFailed && v.res.failureReason == "internal"
            && v.res.errorMessage == "task event stream ended without a terminal event")
      && (!late && !refused && Reported(frames).Some? ==> v == Store(Reported(frames).value))
  {
  }

  /** `DecodeEvents` with the watcher's callback. */
  method DecodeResult(frames: seq<Frame>) returns (result: Option<TaskResult>)
    ensures result == Reported(frames)
  {
    result := None;
    assert frames[0..] == frames;
    for i := 0 to |frames|
      invariant Reported(frames) == Reported(frames[i..])
    {
      assert frames[i..][1..] == frames[i + 1..];
      match frames[i] {
        case Broken => return None;
        case BadDone => return None;
        case Good(body) =>
          if body.Done? {
            return Some(body.result);
          }
      }
    }
  }

  /** The database after a verdict is written, or is not. */
  function Written(db: Db, task: string, v: Verdict, now: int, failAt: nat): Db {
    match v
    case LeftRunning => db
    case Store(res) => Exec(db, FinishTask(task, res.status, res, now), failAt).0
  }

  class Server {
    const tables: Tables
    /** Ids of the tasks whose watcher goroutine has been started and has not ended. */
    var watchers: seq<string>

    constructor (t: Tables)
      ensures tables == t && watchers == []
    {
      tables, watchers := t, [];
    }

    method FinishWatchedTask(task: string, result: TaskResult, now: int, failAt: nat)
      modifies tables
      ensures tables.Abs() == Written(old(tables.Abs()), task, Store(result), now, failAt)
    {
      var _ := tables.FinishTask(task, result.status, result, now, failAt);
    }

    method WatchTask(task: string, tries: seq<Try>, frames: seq<Frame>, now: int, failAt: nat)
      requires |tries| == ATTEMPTS
      modifies tables
      ensures tables.Abs() == Written(old(tables.Abs()), task, Judge(task, tries, frames), now, failAt)
    {
      var attempt := 1;
      while tries[attempt - 1].Refused?
        invariant 1 <= attempt <= ATTEMPTS && tables.Abs() == old(tables.Abs())
        invariant forall i :: 0 <= i < attempt - 1 ==> tries[i].Refused? && !tries[i].deadline
        decreases ATTEMPTS - attempt
      {
        if attempt >= ATTEMPTS {
          FinishWatchedTask(task, FailedResult(task, "sandbox_unavailable", UNREACHABLE), now, failAt);
          return;
        }
        if tries[attempt - 1].deadline {
          return;
        }
        attempt := attempt + 1;
      }
      var result := DecodeResult(frames);
      if result == None {
        FinishWatchedTask(task, FailedResult(task, "internal", NO_TERMINAL), now, failAt);
        return;
      }
      FinishWatchedTask(task, result.value, now, failAt);
    }

    /** One listed row, by the first of the three ways that applies. */
    method SettleTask(task: string, files: map<string, TaskResult>, unreadable: set<string>, now: int, failAt: nat)
      requires task in tables.tasks
      modifies this`watchers, tables
      ensures tables.sandboxes == old(tables.sandboxes) && tables.owners == old(tables.owners)
      ensures tables.tasks ==
        old(tables.tasks)[task := RowAfter(old(tables.Abs()), task, files, unreadable, now, failAt)]
      ensures watchers == old(watchers) +
        if PlanFor(old(tables.Abs()), task, files, unreadable) == Reattach then [task] else []
    {
      if task in files {
        FinishWatchedTask(task, files[task], now, failAt);
        return;
      }
      var sandbox := tables.tasks[task].sandbox;
      if sandbox !in unreadable && sandbox in tables.sandboxes && tables.sandboxes[sandbox].status == Running {
        watchers := watchers + [task];
        return;
      }
      FinishWatchedTask(task, FailedResult(task, "sandbox_unavailable", INTERRUPTED), now, failAt);
    }

    /** Boot: every task a previous process left running is finalised from its result file, or
        watched again if its sandbox runs, or failed. `ids` is what the store lists; `files`
        are the result files that decode with a status; `unreadable` are the sandbox rows the
        store cannot read; `failAt` says how each write goes. */
    method ReconcileTasks(ids: seq<string>, files: map<string, TaskResult>, unreadable: set<string>, now: int,
                          failAt: seq<nat>)
      requires ListsRunning(ids, tables.Abs()) && |failAt| == |ids|
      modifies this, tables
      ensures Settled(old(tables.Abs()), tables.Abs(), ids, files, unreadable, now, failAt)
      ensures watchers == old(watchers) + Reattached(old(tables.Abs()), ids, files, unreadable)
    {
      ghost var db, before := tables.Abs(), watchers;
      assert ids[..0] == [] && failAt[..0] == [];
      for i := 0 to |ids|
        invariant Settled(db, tables.Abs(), ids[..i], files, unreadable, now, failAt[..i])
        invariant watchers == before + Reattached(db, ids[..i], files, unreadable)
      {
        var task := ids[i];
        ghost var mid := tables.Abs();
        NotSettledYet(db, mid, ids, files, unreadable, now, failAt, i);
        SettleTask(task, files, unreadable, now, failAt[i]);
        SettleOne(db, mid, tables.Abs(), ids, files, unreadable, now, failAt, i);
      }
      assert ids[..|ids|] == ids && failAt[..|ids|] == failAt;
    }
  }

  // --- the boot pass --------------------------------------------------------------------------

  predicate IsRunning(db: Db, task: string) {
    task in db.tasks && db.tasks[task].status == TaskRunning
  }

  ghost predicate ListsRunning(ids: seq<string>, db: Db) {
    && (forall i, j :: 0 <= i < j < |ids| ==> ids[i] != ids[j])
    && (forall task :: task in ids <==> IsRunning(db, task))
  }

  datatype Plan = Finalise(res: TaskResult) | Reattach

  predicate SandboxUp(db: Db, sandbox: string, unreadable: set<string>) {
    sandbox !in unreadable && sandbox in db.sandboxes && db.sandboxes[sandbox].status == Running
  }

  function PlanFor(db: Db, task: string, files: map<string, TaskResult>, unreadable: set<string>): Plan
    requires task in db.tasks
  {
    if task in files then Finalise(files[task])
    else if SandboxUp(db, db.tasks[task].sandbox, unreadable) then Reattach
    else Finalise(FailedResult(task, "sandbox_unavailable", INTERRUPTED))
  }

  /** One row after the pass. */
  function RowAfter(db: Db, task: string, files: map<string, TaskResult>, unreadable: set<string>, now: int,
                    failAt: nat): TaskRow
    requires task in db.tasks
  {
    match PlanFor(db, task, files, unreadable)
    case Reattach => db.tasks[task]
    case Finalise(res) =>
      if failAt == 0 then db.tasks[task]
      else db.tasks[task].(status := res.status, result := Some(res), finishedAt := Some(now))
  }

  /** Exactly the listed rows may have changed, each by its own plan. */
  ghost predicate Settled(db: Db, now': Db, ids: seq<string>, files: map<string, TaskResult>, unreadable: set<string>,
                          now: int, failAt: seq<nat>) {
    && |failAt| == |ids|
    && now'.sandboxes == db.sandboxes && now'.owners == db.owners && now'.tasks.Keys == db.tasks.Keys
    && (forall i :: 0 <= i < |ids| ==>
          ids[i] in db.tasks && now'.tasks[ids[i]] == RowAfter(db, ids[i], files, unreadable, now, failAt[i]))
    && (forall task | task in db.tasks && task !in ids :: now'.tasks[task] == db.tasks[task])
  }

  function Reattached(db: Db, ids: seq<string>, files: map<string, TaskResult>, unreadable: set<string>): seq<string> {
    if ids == [] then []
    else
      var last := ids[|ids| - 1];
      Reattached(db, ids[..|ids| - 1], files, unreadable) +
      if last in db.tasks && PlanFor(db, last, files, unreadable) == Reattach then [last] else []
  }

  lemma {:induction false} NotSettledYet(db: Db, mid: Db, ids: seq<string>, files: map<string, TaskResult>,
                                         unreadable: set<string>, now: int, failAt: seq<nat>, i: nat)
    requires i < |ids| == |failAt| && ListsRunning(ids, db)
    requires Settled(db, mid, ids[..i], files, unreadable, now, failAt[..i])
    ensures ids[i] in db.tasks && ids[i] !in ids[..i] && ids[i] in mid.tasks && mid.tasks[ids[i]] == db.tasks[ids[i]]
    ensures mid.sandboxes == db.sandboxes
    ensures Reattached(db, ids[..i + 1], files, unreadable) == Reattached(db, ids[..i], files, unreadable) +
      if PlanFor(db, ids[i], files, unreadable) == Reattach then [ids[i]] else []
  {
    assert ids[i] in ids && IsRunning(db, ids[i]);
    assert ids[..i + 1][..i] == ids[..i];
  }

  /** The row of the next listed task, and no other, gets what its plan says. */
  lemma {:induction false} SettleOne(db: Db, mid: Db, after: Db, ids: seq<string>, files: map<string, TaskResult>,
                                     unreadable: set<string>, now: int, failAt: seq<nat>, i: nat)
    requires i < |ids| == |failAt| && ids[i] in db.tasks && ids[i] !in ids[..i]
    requires Settled(db, mid, ids[..i], files, unreadable, now, failAt[..i])
    requires after.sandboxes == mid.sandboxes && after.owners == mid.owners && ids[i] in mid.tasks
    requires after.tasks == mid.tasks[ids[i] := RowAfter(db, ids[i], files, unreadable, now, failAt[i])]
    ensures Settled(db, after, ids[..i + 1], files, unreadable, now, failAt[..i + 1])
  {
    var more, fails := ids[..i + 1], failAt[..i + 1];
    assert more == ids[..i] + [ids[i]];
    forall j | 0 <= j < |more|
      ensures more[j] in db.tasks && after.tasks[more[j]] == RowAfter(db, more[j], files, unreadable, now, fails[j])
    {
      if j < i {
        assert more[j] == ids[..i][j] && fails[j] == failAt[..i][j];
      }
    }
  }

  /** What the pass makes of one listed task whose write is carried out: its result file, where there
      is one; else it is left running if its sandbox's row says running; else it has failed. */
  lemma {:induction false} PassSettles(db: Db, after: Db, ids: seq<string>, files: map<string, TaskResult>,
                                       unreadable: set<string>, now: int, failAt: seq<nat>, i: nat)
    requires ListsRunning(ids, db) && Settled(db, after, ids, files, unreadable, now, failAt)
    requires i < |ids| && ids[i] in db.tasks && failAt[i] > 0
    ensures var task := ids[i];
      var sandbox := db.tasks[task].sandbox;
      var up := sandbox !in unreadable && sandbox in db.sandboxes && db.sandboxes[sandbox].status == Running;
      && task in after.tasks
      && (task in files ==>
            && after.tasks[task].status == files[task].status
            && after.tasks[task].result == Some(files[task]) && after.tasks[task].finishedAt == Some(now))
      && (task in files && files[task].status != TaskRunning ==>
            GetTask(after, sandbox, task) == Finished(files[task]))
      && (task !in files && up ==> after.tasks[task] == db.tasks[task])
      && (task !in files && !up ==>
            && after.tasks[task].status == TaskFailed && after.tasks[task].result.Some?
            && var r := after.tasks[task].result.value;
               && r.id == task && r.status == TaskFailed && r.failureReason == "sandbox_unavailable"
               && r.errorMessage ==
                  "task interrupted by a sandboxd restart; the sandbox was unavailable to resume or report it")
  {
    assert after.tasks[ids[i]] == RowAfter(db, ids[i], files, unreadable, now, failAt[i]);
  }

  /** After the boot pass, if its writes succeeded and the result files hold terminal results,
      the rows still running are exactly those that have a watcher, and each of them belongs
      to a sandbox row that says running. */
  lemma {:induction false} RunningIffWatched(db: Db, after: Db, ids: seq<string>, files: map<string, TaskResult>,
                                             unreadable: set<string>, now: int, failAt: seq<nat>, task: string)
    requires ListsRunning(ids, db) && Settled(db, after, ids, files, unreadable, now, failAt)
    requires forall i :: 0 <= i < |failAt| ==> failAt[i] > 0
    requires forall id | id in files :: files[id].status != TaskRunning
    ensures IsRunning(after, task) <==> task in Reattached(db, ids, files, unreadable)
    ensures IsRunning(after, task) ==> SandboxUp(after, after.tasks[task].sandbox, unreadable)
  {
    ReattachedIff(db, ids, files, unreadable, task);
    if task in ids {
      var i :| 0 <= i < |ids| && ids[i] == task;
      assert after.tasks[ids[i]] == RowAfter(db, ids[i], files, unreadable, now, failAt[i]);
      assert IsRunning(db, task);
    }
  }

  lemma {:induction false} ReattachedIff(db: Db, ids: seq<string>, files: map<string, TaskResult>,
                                         unreadable: set<string>, task: string)
    ensures task in Reattached(db, ids, files, unreadable) <==>
      task in ids && task in db.tasks && PlanFor(db, task, files, unreadable) == Reattach
  {
    if ids != [] {
      var front, last := ids[..|ids| - 1], ids[|ids| - 1];
      assert ids == front + [last];
      ReattachedIff(db, front, files, unreadable, task);
    }
  }

  // --- one FinishTask per row ------------------------------------------------------------------

  /** A sandboxd process: it first works through the rows it found running, then serves. The
      last field lists the ids it has issued a `FinishTask` for. */
  datatype Proc = Proc(db: Db, todo: seq<string>, watchers: seq<string>, finished: seq<string>)

  datatype Step =
    | Settle(plan: Plan, now: int, failAt: nat)
    | Submit(task: string, sandbox: string, now: int, failAt: nat, patience: Patience)
    | WatcherEnds(w: nat, verdict: Verdict, now: int, failAt: nat)
    | OtherWrite(op: Op, failAt: nat)

  predicate TouchesTasks(op: Op) {
    op.CreateTask? || op.FinishTask?
  }

  function Without<T>(s: seq<T>, i: nat): seq<T>
    requires i < |s|
  {
    s[..i] + s[i + 1..]
  }

  function Next(p: Proc, step: Step): Proc {
    match step
    case Settle(plan, now, failAt) =>
      if p.todo == [] then p
      else if plan.Reattach? then p.(todo := p.todo[1..], watchers := p.watchers + [p.todo[0]])
      else p.(db := Written(p.db, p.todo[0], Store(plan.res), now, failAt), todo := p.todo[1..],
              finished := p.finished + [p.todo[0]])
    case Submit(task, sandbox, now, failAt, patience) =>
      if p.todo != [] then p else
      var (db, reply) := Submitted(p.db, CreateTask(task, sandbox, now), failAt, patience);
      if reply == Replied(Ok) then p.(db := db, watchers := p.watchers + [task]) else p.(db := db)
    case WatcherEnds(w, verdict, now, failAt) =>
      if w >= |p.watchers| then p else
      p.(db := Written(p.db, p.watchers[w], verdict, now, failAt), watchers := Without(p.watchers, w),
         finished := p.finished + if verdict.Store? then [p.watchers[w]] else [])
    case OtherWrite(op, failAt) =>
      if TouchesTasks(op) then p else p.(db := Exec(p.db, op, failAt).0)
  }

  function Run(p: Proc, steps: seq<Step>): Proc
    decreases |steps|
  {
    if steps == [] then p else Run(Next(p, steps[0]), steps[1..])
  }

  /** Everything that has issued, or may still issue, a `FinishTask` for a row. */
  function Claims(p: Proc): multiset<string> {
    multiset(p.todo) + multiset(p.watchers) + multiset(p.finished)
  }

  ghost predicate Inv(p: Proc) {
    forall task :: Claims(p)[task] <= if task in p.db.tasks then 1 else 0
  }

  lemma {:induction false} WithoutCounts<T>(s: seq<T>, i: nat)
    requires i < |s|
    ensures multiset(s) == multiset(Without(s, i)) + multiset{s[i]}
  {
    assert s == s[..i] + [s[i]] + s[i + 1..];
  }

  lemma {:induction false} WrittenKeys(db: Db, task: string, v: Verdict, now: int, failAt: nat)
    ensures Written(db, task, v, now, failAt).tasks.Keys == db.tasks.Keys
  {
  }

  lemma {:induction false} SettleInv(p: Proc, plan: Plan, now: int, failAt: nat)
    requires Inv(p) && p.todo != []
    ensures Inv(Next(p, Settle(plan, now, failAt)))
  {
    SettleMoves(p, plan, now, failAt);
    if plan.Finalise? {
      WrittenKeys(p.db, p.todo[0], Store(plan.res), now, failAt);
    }
  }

  lemma {:induction false} SubmitAdds(db: Db, task: string, sandbox: string, now: int, failAt: nat, patience: Patience)
    ensures var (next, reply) := Submitted(db, CreateTask(task, sandbox, now), failAt, patience);
      && db.tasks.Keys <= next.tasks.Keys
      && (reply == Replied(Ok) ==> task !in db.tasks && next.tasks.Keys == db.tasks.Keys + {task})
  {
  }

  lemma {:induction false} SubmitInv(p: Proc, task: string, sandbox: string, now: int, failAt: nat, patience: Patience)
    requires Inv(p)
    ensures Inv(Next(p, Submit(task, sandbox, now, failAt, patience)))
  {
    if p.todo == [] {
      var (db, reply) := Submitted(p.db, CreateTask(task, sandbox, now), failAt, patience);
      SubmitAdds(p.db, task, sandbox, now, failAt, patience);
      if reply == Replied(Ok) {
        WatcherAdded(p, db, task);
      } else {
        RowsAdded(p, db);
      }
    }
  }

  lemma {:induction false} RowsAdded(p: Proc, db: Db)
    requires Inv(p) && p.db.tasks.Keys <= db.tasks.Keys
    ensures Inv(p.(db := db))
  {
    assert Claims(p.(db := db)) == Claims(p);
  }

  lemma {:induction false} WatcherAdded(p: Proc, db: Db, task: string)
    requires Inv(p) && task !in p.db.tasks && db.tasks.Keys == p.db.tasks.Keys + {task}
    ensures Inv(p.(db := db, watchers := p.watchers + [task]))
  {
    assert Claims(p.(db := db, watchers := p.watchers + [task])) == Claims(p) + multiset{task};
    assert Claims(p)[task] == 0;
  }

  lemma {:induction false} WatcherEndsInv(p: Proc, w: nat, verdict: Verdict, now: int, failAt: nat)
    requires Inv(p) && w < |p.watchers|
    ensures Inv(Next(p, WatcherEnds(w, verdict, now, failAt)))
  {
    var n := Next(p, WatcherEnds(w, verdict, now, failAt));
    WithoutCounts(p.watchers, w);
    WrittenKeys(p.db, p.watchers[w], verdict, now, failAt);
    assert Claims(n) <= Claims(p);
  }

  lemma {:induction false} InvStep(p: Proc, step: Step)
    requires Inv(p)
    ensures Inv(Next(p, step))
  {
    match step {
      case Settle(plan, now, failAt) =>
        if p.todo != [] {
          SettleInv(p, plan, now, failAt);
        }
      case Submit(task, sandbox, now, failAt, patience) => SubmitInv(p, task, sandbox, now, failAt, patience);
      case WatcherEnds(w, verdict, now, failAt) =>
        if w < |p.watchers| {
          WatcherEndsInv(p, w, verdict, now, failAt);
        }
      case OtherWrite(op, failAt) =>
        if !TouchesTasks(op) {
          assert Exec(p.db, op, failAt).0.tasks == p.db.tasks;
        }
    }
  }

  /** However a process boots, serves, and however its watchers interleave, it issues at most
      one `FinishTask` for any row, and never while a watcher for the row remains. */
  lemma {:induction false} AtMostOneFinish(db: Db, listed: seq<string>, steps: seq<Step>, task: string)
    requires ListsRunning(listed, db)
    ensures var p := Run(Proc(db, listed, [], []), steps);
      multiset(p.finished)[task] + multiset(p.watchers)[task] <= 1
  {
    var p := Proc(db, listed, [], []);
    forall id
      ensures Claims(p)[id] <= if id in db.tasks then 1 else 0
    {
      CountDistinct(listed, id);
      assert id in listed ==> IsRunning(db, id);
    }
    RunInv(p, steps);
    assert Claims(Run(p, steps))[task] <= 1;
  }

  /** No watcher's deadline passes between two tries. */
  ghost predicate AllReport(steps: seq<Step>) {
    forall i :: 0 <= i < |steps| && steps[i].WatcherEnds? ==> steps[i].verdict.Store?
  }

  lemma {:induction false} ClaimsKept(p: Proc, step: Step)
    requires step.WatcherEnds? ==> step.verdict.Store?
    ensures Claims(p) <= Claims(Next(p, step))
  {
    match step {
      case Settle(plan, now, failAt) =>
        if p.todo != [] {
          SettleMoves(p, plan, now, failAt);
        }
      case WatcherEnds(w, verdict, now, failAt) =>
        if w < |p.watchers| {
          WithoutCounts(p.watchers, w);
          assert Claims(Next(p, step)) == Claims(p);
        }
      case Submit(task, _, _, _, _) =>
        assert multiset(p.watchers + [task]) == multiset(p.watchers) + multiset{task};
      case OtherWrite(_, _) =>
    }
  }

  /** A task that is settled moves from one claim to another. */
  lemma {:induction false} SettleMoves(p: Proc, plan: Plan, now: int, failAt: nat)
    requires p.todo != []
    ensures Claims(Next(p, Settle(plan, now, failAt))) == Claims(p)
  {
    var task, rest := p.todo[0], p.todo[1..];
    assert p.todo == [task] + rest;
    assert multiset(p.watchers + [task]) == multiset(p.watchers) + multiset{task};
    assert multiset(p.finished + [task]) == multiset(p.finished) + multiset{task};
  }

  lemma {:induction false} RunKeepsClaims(p: Proc, steps: seq<Step>)
    requires AllReport(steps)
    ensures Claims(p) <= Claims(Run(p, steps))
    decreases |steps|
  {
    if steps != [] {
      var rest := steps[1..];
      assert forall i :: 0 <= i < |rest| ==> rest[i] == steps[i + 1];
      ClaimsKept(p, steps[0]);
      RunKeepsClaims(Next(p, steps[0]), rest);
    }
  }

  /** And if no deadline passes, each task that was found running is at any moment either still to be
      looked at, or watched, or has had its `FinishTask`, exactly one of them and once: none is lost. */
  lemma {:induction false} EveryTaskIsSettled(db: Db, listed: seq<string>, steps: seq<Step>, task: string)
    requires ListsRunning(listed, db) && task in listed && AllReport(steps)
    ensures var p := Run(Proc(db, listed, [], []), steps);
      multiset(p.todo)[task] + multiset(p.watchers)[task] + multiset(p.finished)[task] == 1
  {
    var p := Proc(db, listed, [], []);
    forall id
      ensures Claims(p)[id] <= if id in db.tasks then 1 else 0
    {
      CountDistinct(listed, id);
      assert id in listed ==> IsRunning(db, id);
    }
    CountDistinct(listed, task);
    RunInv(p, steps);
    RunKeepsClaims(p, steps);
  }

  lemma {:induction false} CountDistinct(s: seq<string>, x: string)
    requires forall i, j :: 0 <= i < j < |s| ==> s[i] != s[j]
    ensures multiset(s)[x] == if x in s then 1 else 0
    decreases |s|
  {
    if s != [] {
      assert s == [s[0]] + s[1..];
      CountDistinct(s[1..], x);
    }
  }

  lemma {:induction false} RunInv(p: Proc, steps: seq<Step>)
    requires Inv(p)
    ensures Inv(Run(p, steps))
    decreases |steps|
  {
    if steps != [] {
      InvStep(p, steps[0]);
      RunInv(Next(p, steps[0]), steps[1..]);
    }
  }

  // --- what a caller is shown --------------------------------------------------------------------

  datatype Shown = NoSuchTask | StillRunning | Finished(res: TaskResult)

  function GetTask(db: Db, sandbox: string, task: string): Shown {
    if task !in db.tasks || db.tasks[task].sandbox != sandbox then NoSuchTask
    else if db.tasks[task].status == TaskRunning || db.tasks[task].result.None? then StillRunning
    else Finished(db.tasks[task].result.value)
  }

  /** From end to end: a task that runs in runtimed while its watcher reads along, in any
      interleaving of the sections of its run with its readers, is shown afterwards with exactly
      the result its run concluded with, if the watcher reached the terminal event and its one
      write succeeded; nothing the store does later to other tables or other tasks takes it away. */
  lemma {:induction false} ResultIsDurable(steps: seq<TaskStream.Step>, r: nat, id: string, w: World, tries: seq<Try>,
                                           db: Db, task: string, now: int, failAt: nat, later: seq<Call>)
    requires var s := TaskStream.Run(TaskStream.Init(), steps);
      r < |s.readers| && s.readers[r].since == 0 && s.readers[r].at.SawDone?
    requires TaskStream.WriterSteps(steps) <= TaskStream.Script(id, w) && ProgressOnly(w.agent.emits)
    requires |tries| == ATTEMPTS && Opened in tries && forall i :: 0 <= i < ATTEMPTS ==> tries[i].Refused? ==> !tries[i].deadline
    requires task in db.tasks && failAt > 0
    requires forall i :: 0 <= i < |later| ==> later[i].op.FinishTask? ==> later[i].op.task != task
    ensures var s := TaskStream.Run(TaskStream.Init(), steps);
      var stored := Written(db, task, Judge(task, tries, Frames(s.readers[r].delivered)), now, failAt);
      GetTask(Rows.Run(stored, later), db.tasks[task].sandbox, task) == Finished(FinalResult(id, w))
  {
    var s := TaskStream.Run(TaskStream.Init(), steps);
    WatcherGetsResultIff(steps, r);
    TaskStream.InterleavedRun(steps, id, w);
    var res := FinalResult(id, w);
    assert res.status != TaskRunning;
    var stored := Written(db, task, Judge(task, tries, Frames(s.readers[r].delivered)), now, failAt);
    TaskRowKept(stored, later, task);
  }

  lemma {:induction false} TaskRowKept(db: Db, calls: seq<Call>, task: string)
    requires task in db.tasks
    requires forall i :: 0 <= i < |calls| ==> calls[i].op.FinishTask? ==> calls[i].op.task != task
    ensures task in Rows.Run(db, calls).tasks && Rows.Run(db, calls).tasks[task] == db.tasks[task]
    decreases |calls|
  {
    if calls != [] {
      var rest := calls[1..];
      assert calls[0].op.FinishTask? ==> calls[0].op.task != task;
      assert forall i :: 0 <= i < |rest| ==> rest[i] == calls[i + 1];
      TaskRowKept(Exec(db, calls[0].op, calls[0].failAt).0, rest, task);
    }
  }
}
