/** The event log of one coding task (control-plane/cmd/runtimed/task.go): the value it
    stands for, the class that updates it in place, and the run that fills it. */
module TaskLog {
  import opened Common
  import opened Protocol

  /** What a task holds at one moment. Channels are numbered in creation order, so `ch` is
      the current `updatedCh` and `closed` are the channels closed so far. `file` is
      events.jsonl and `open` says whether its writer is still there. */
  datatype Log = Log(
    events: seq<Event>,
    file: seq<Event>,
    open: bool,
    ch: nat,
    closed: set<nat>,
    done: bool,
    phase: string,
    result: Option<TaskResult>)

  function NewLog(): Log {
    Log([], [], true, 0, {}, false, "queued", None)
  }

  /** Wake everyone: close the current channel and replace it by a fresh one. */
  function Broadcast(l: Log): Log {
    l.(closed := l.closed + {l.ch}, ch := l.ch + 1)
  }

  function Emitted(l: Log, body: Body): Log {
    var ev := Event(|l.events|, body);
    Broadcast(l.(events := l.events + [ev], file := if l.open then l.file + [ev] else l.file))
  }

  /** The second critical section of `finish`, after the terminal event is out. */
  function Sealed(l: Log, res: TaskResult): Log {
    Broadcast(l.(done := true, phase := "done", result := Some(res), open := false))
  }

  function Since(l: Log, cursor: nat): seq<Event> {
    if cursor < |l.events| then l.events[cursor..] else []
  }

  /** Ids equal indices, the file repeats the log, and exactly the replaced channels are
      closed; in particular the current channel is open, so no close can panic. */
  ghost predicate LogInv(l: Log) {
    && (forall i :: 0 <= i < |l.events| ==> l.events[i].id == i)
    && l.file == l.events
    && (forall c: nat :: c in l.closed <==> c < l.ch)
  }

  predicate HasDone(evs: seq<Event>) {
    exists i :: 0 <= i < |evs| && evs[i].body.Done?
  }

  /** The terminal event is there, once, and last. */
  ghost predicate EndsWith(evs: seq<Event>, res: TaskResult) {
    && |evs| > 0
    && evs[|evs| - 1].body == Done(res)
    && !HasDone(evs[..|evs| - 1])
  }

  /** The agents `selectAgent` knows; an empty name stands for the default. */
  predicate Supported(agent: string) {
    agent == "" || agent == "opencode"
  }

  class Task {
    const agent: string
    var events: seq<Event>
    var file: seq<Event>
    var open: bool
    var updatedCh: nat
    var closed: set<nat>
    var done: bool
    var phase: string
    var result: Option<TaskResult>

    ghost function Abs(): Log
      reads this
    {
      Log(events, file, open, updatedCh, closed, done, phase, result)
    }

    ghost predicate Valid()
      reads this
    {
      updatedCh !in closed && forall c | c in closed :: c < updatedCh
    }

    constructor (agent: string)
      ensures Abs() == NewLog() && Valid() && this.agent == agent
    {
      this.agent := agent;
      events, file, open := [], [], true;
      updatedCh, closed := 0, {};
      done, phase, result := false, "queued", None;
    }

    method CloseAndReplace()
      requires Valid()
      modifies this`updatedCh, this`closed
      ensures Valid() && Abs() == Broadcast(old(Abs()))
    {
      assert updatedCh !in closed;  // closing a closed channel panics in Go
      closed := closed + {updatedCh};
      updatedCh := updatedCh + 1;
    }

    method Emit(body: Body)
      requires Valid()
      modifies this
      ensures Valid() && Abs() == Emitted(old(Abs()), body)
    {
      var ev := Event(|events|, body);
      events := events + [ev];
      if open {
        file := file + [ev];
      }
      CloseAndReplace();
    }

    method SetPhase(p: string)
      requires Valid()
      modifies this
      ensures Valid() && Abs() == Emitted(old(Abs()).(phase := p), Status(p))
    {
      phase := p;
      Emit(Status(p));
    }

    /** The events from `cursor` on, and the channel closed by the next one. */
    method EventsSince(cursor: nat) returns (out: seq<Event>, wait: nat)
      ensures out == Since(Abs(), cursor) && wait == updatedCh
    {
      out := [];
      if cursor < |events| {
        out := out + events[cursor..];
      }
      wait := updatedCh;
    }

    method Finish(res: TaskResult)
      requires Valid()
      modifies this
      ensures Valid() && Abs() == Sealed(Emitted(old(Abs()), Done(res)), res)
    {
      Emit(Done(res));
      done, phase, result := true, "done", Some(res);
      if open {
        open := false;
      }
      CloseAndReplace();
    }
  }

  // --- runTask -----------------------------------------------------------------------

  datatype CtxState = CtxLive | CtxDeadline | CtxCancelled

  /** What the agent adapter reports back, and what it emitted while running. */
  datatype AgentRun = AgentRun(emits: seq<Body>, finalMsg: string, err: Option<string>)

  /** Everything a run observes from outside: the checkpoint, whether the agent name is
      known, the agent, the context after it, the diff, the build and the preview probe. */
  datatype World = World(
    checkpoint: string,
    agentKnown: bool,
    unknownMsg: string,
    agent: AgentRun,
    ctx: CtxState,
    files: Option<seq<string>>,
    buildOk: bool,
    buildMsg: string,
    previewMsg: string)

  /** Agents emit progress only; the terminal event is runtimed's own. */
  predicate ProgressOnly(bodies: seq<Body>) {
    forall i :: 0 <= i < |bodies| ==> !bodies[i].Done?
  }

  const TIMEOUT_MSG := "agent did not finish within the task timeout"

  /** The outcome, by order of authority: timeout, cancellation, then the agent's error. */
  function Classify(ctx: CtxState, err: Option<string>): (r: (TaskStatus, string, string)) {
    match ctx
    case CtxDeadline => (TaskFailed, "agent_timeout", TIMEOUT_MSG)
    case CtxCancelled => (TaskCancelled, "cancelled", "")
    case CtxLive =>
      match err
      case Some(msg) => (TaskFailed, "agent_error", msg)
      case None => (TaskSucceeded, "", "")
  }

  function FinalResult(id: string, w: World): TaskResult {
    if !w.agentKnown then
      TaskResult(id, TaskFailed, "internal", w.unknownMsg, [], "", false, "", "", w.checkpoint)
    else
      var (status, reason, msg) := Classify(w.ctx, w.agent.err);
      var built := status != TaskCancelled;
      TaskResult(id, status, reason, msg,
                 if w.files.Some? then w.files.value else [],
                 w.agent.finalMsg,
                 built && w.buildOk,
                 if built then w.buildMsg else "",
                 if built then w.previewMsg else "",
                 w.checkpoint)
  }

  /** The bodies one run appends before its terminal event. */
  function Progress(w: World): seq<Body> {
    [Status("checkpoint"), Status("agent_running")] +
    if !w.agentKnown then [] else
      w.agent.emits +
      if w.ctx == CtxCancelled then [] else
        [Status("build_check"), Build(w.buildOk, w.buildMsg), Status("health_check")]
  }

  function Number(from: nat, bodies: seq<Body>): seq<Event>
    ensures |Number(from, bodies)| == |bodies|
    decreases |bodies|
  {
    if bodies == [] then [] else [Event(from, bodies[0])] + Number(from + 1, bodies[1..])
  }

  lemma {:induction false} NumberAt(from: nat, bodies: seq<Body>, i: nat)
    requires i < |bodies|
    ensures Number(from, bodies)[i] == Event(from + i, bodies[i])
    decreases |bodies|
  {
    if i > 0 {
      NumberAt(from + 1, bodies[1..], i - 1);
    }
  }

  lemma {:induction false} NumberSnoc(from: nat, bodies: seq<Body>, b: Body)
    ensures Number(from, bodies + [b]) == Number(from, bodies) + [Event(from + |bodies|, b)]
    decreases |bodies|
  {
    if bodies == [] {
      assert bodies + [b] == [b];
      assert Number(from, [b]) == [Event(from, b)] + Number(from + 1, []);
    } else {
      assert (bodies + [b])[1..] == bodies[1..] + [b];
      NumberSnoc(from + 1, bodies[1..], b);
    }
  }

  /** The log is `pre` followed by `sent`, numbered on from it, in memory and in the file. */
  ghost predicate Sent(t: Task, pre: seq<Event>, sent: seq<Body>)
    reads t
  {
    t.Valid() && t.events == pre + Number(|pre|, sent) && t.file == t.events
  }

  /** The sink every stage of a run writes to. */
  method Send(t: Task, body: Body, ghost pre: seq<Event>, ghost sent: seq<Body>)
    requires Sent(t, pre, sent) && t.open
    modifies t
    ensures Sent(t, pre, sent + [body]) && t.open
  {
    t.Emit(body);
    NumberSnoc(|pre|, sent, body);
  }

  method Enter(t: Task, phase: string, ghost pre: seq<Event>, ghost sent: seq<Body>)
    requires Sent(t, pre, sent) && t.open
    modifies t
    ensures Sent(t, pre, sent + [Status(phase)]) && t.open && t.phase == phase
  {
    t.SetPhase(phase);
    NumberSnoc(|pre|, sent, Status(phase));
  }

  method Conclude(t: Task, res: TaskResult, ghost pre: seq<Event>, ghost sent: seq<Body>)
    requires Sent(t, pre, sent) && t.open
    modifies t
    ensures Sent(t, pre, sent + [Done(res)])
    ensures t.done && !t.open && t.phase == "done" && t.result == Some(res)
  {
    t.Finish(res);
    NumberSnoc(|pre|, sent, Done(res));
  }

  /** The agent's progress events, in the order it reports them. */
  method RunAgent(t: Task, emits: seq<Body>, ghost pre: seq<Event>, ghost sent: seq<Body>)
    requires Sent(t, pre, sent) && t.open
    modifies t
    ensures Sent(t, pre, sent + emits) && t.open
  {
    assert sent + emits[..0] == sent;
    for i := 0 to |emits|
      invariant Sent(t, pre, sent + emits[..i]) && t.open
    {
      Send(t, emits[i], pre, sent + emits[..i]);
      assert sent + emits[..i] + [emits[i]] == sent + emits[..i + 1];
    }
    assert emits[..|emits|] == emits;
  }

  /** The build and health stages of a run that was not cancelled. */
  method Check(t: Task, w: World, ghost pre: seq<Event>, ghost sent: seq<Body>)
    requires Sent(t, pre, sent) && t.open
    modifies t
    ensures t.open
    ensures Sent(t, pre, sent + [Status("build_check"), Build(w.buildOk, w.buildMsg), Status("health_check")])
  {
    Enter(t, "build_check", pre, sent);
    Send(t, Build(w.buildOk, w.buildMsg), pre, sent + [Status("build_check")]);
    Enter(t, "health_check", pre, sent + [Status("build_check")] + [Build(w.buildOk, w.buildMsg)]);
    assert sent + [Status("build_check")] + [Build(w.buildOk, w.buildMsg)] + [Status("health_check")]
        == sent + [Status("build_check"), Build(w.buildOk, w.buildMsg), Status("health_check")];
  }

  /** A whole run: every path ends in exactly one `Finish`, with the classified result,
      after exactly the progress the path produces. */
  method RunTask(t: Task, id: string, w: World)
    requires t.Valid() && t.open && t.file == t.events
    modifies t
    ensures t.Valid() && t.done && !t.open && t.phase == "done" && t.file == t.events
    ensures t.events == old(t.events) + Number(|old(t.events)|, Progress(w) + [Done(FinalResult(id, w))])
    ensures t.result == Some(FinalResult(id, w))
  {
    ghost var pre := t.events;
    Enter(t, "checkpoint", pre, []);
    var res := TaskResult(id, TaskRunning, "", "", [], "", false, "", "", w.checkpoint);
    Enter(t, "agent_running", pre, [] + [Status("checkpoint")]);
    ghost var sent := [Status("checkpoint"), Status("agent_running")];
    assert [] + [Status("checkpoint")] + [Status("agent_running")] == sent;
    if !w.agentKnown {
      res := res.(status := TaskFailed, failureReason := "internal", errorMessage := w.unknownMsg);
      assert sent + [] == sent;
      Conclude(t, res, pre, sent);
      return;
    }
    RunAgent(t, w.agent.emits, pre, sent);
    sent := sent + w.agent.emits;
    res := res.(agentMessage := w.agent.finalMsg);
    var status, reason, msg := TaskSucceeded, "", "";
    if w.ctx == CtxDeadline {
      status, reason, msg := TaskFailed, "agent_timeout", TIMEOUT_MSG;
    } else if w.ctx == CtxCancelled {
      status, reason := TaskCancelled, "cancelled";
    } else if w.agent.err.Some? {
      status, reason, msg := TaskFailed, "agent_error", w.agent.err.value;
    }
    if w.files.Some? {
      res := res.(filesChanged := w.files.value);
    }
    if status != TaskCancelled {
      Check(t, w, pre, sent);
      sent := sent + [Status("build_check"), Build(w.buildOk, w.buildMsg), Status("health_check")];
      res := res.(buildOk := w.buildOk, buildError := w.buildMsg, previewError := w.previewMsg);
    }
    res := res.(status := status, failureReason := reason, errorMessage := msg);
    ProgressIs(w, sent);
    Conclude(t, res, pre, sent);
  }

  /** The two ways of grouping a known agent's progress agree. */
  lemma ProgressIs(w: World, sent: seq<Body>)
    requires w.agentKnown
    requires sent == [Status("checkpoint"), Status("agent_running")] + w.agent.emits +
      if w.ctx == CtxCancelled then [] else
        [Status("build_check"), Build(w.buildOk, w.buildMsg), Status("health_check")]
    ensures sent == Progress(w)
  {
    assert [Status("checkpoint"), Status("agent_running")] + w.agent.emits + []
      == [Status("checkpoint"), Status("agent_running")] + (w.agent.emits + []);
  }

  /** The terminal event of a run is there exactly once and last, whatever the run saw. */
  lemma {:induction false} RunEndsOnce(pre: seq<Event>, id: string, w: World)
    requires !HasDone(pre) && ProgressOnly(w.agent.emits)
    ensures EndsWith(pre + Number(|pre|, Progress(w) + [Done(FinalResult(id, w))]), FinalResult(id, w))
  {
    var bodies := Progress(w) + [Done(FinalResult(id, w))];
    var evs := pre + Number(|pre|, bodies);
    NumberAt(|pre|, bodies, |bodies| - 1);
    forall i | 0 <= i < |evs| - 1
      ensures !evs[i].body.Done?
    {
      if i >= |pre| {
        NumberAt(|pre|, bodies, i - |pre|);
        assert bodies[i - |pre|] == Progress(w)[i - |pre|];
      }
    }
  }

  /** A task is reported succeeded exactly when the agent was known, ran to its end in time,
      was not cancelled and reported no error; only a cancelled run skips the build. */
  lemma {:induction false} SucceededIff(id: string, w: World)
    ensures FinalResult(id, w).status == TaskSucceeded
       <==> w.agentKnown && w.ctx == CtxLive && w.agent.err.None?
    ensures w.agentKnown ==>
       ((exists i :: 0 <= i < |Progress(w)| && i >= 2 + |w.agent.emits| && Progress(w)[i].Build?)
       <==> FinalResult(id, w).status != TaskCancelled)
  {
    if w.agentKnown && w.ctx != CtxCancelled {
      var i := 2 + |w.agent.emits| + 1;
      assert Progress(w)[i] == Build(w.buildOk, w.buildMsg);
    }
  }

  /** What a run concludes, path by path: an unknown agent; a context that ran out of time or was
      cancelled, whatever the agent says; an agent that reports an error; and success. */
  lemma {:induction false} Concludes(id: string, w: World)
    ensures var r := FinalResult(id, w);
      && r.id == id && r.checkpoint == w.checkpoint
      && (!w.agentKnown ==>
            && r.status == TaskFailed && r.failureReason == "internal" && r.errorMessage == w.unknownMsg
            && r.filesChanged == [] && r.agentMessage == "")
      && (w.agentKnown && w.ctx == CtxDeadline ==>
            && r.status == TaskFailed && r.failureReason == "agent_timeout"
            && r.errorMessage == "agent did not finish within the task timeout")
      && (w.agentKnown && w.ctx == CtxCancelled ==>
            r.status == TaskCancelled && r.failureReason == "cancelled" && r.errorMessage == "")
      && (w.agentKnown && w.ctx == CtxLive && w.agent.err.Some? ==>
            && r.status == TaskFailed && r.failureReason == "agent_error"
            && r.errorMessage == w.agent.err.value)
      && (w.agentKnown && w.ctx == CtxLive && w.agent.err.None? ==>
            r.status == TaskSucceeded && r.failureReason == "" && r.errorMessage == "")
    ensures var r := FinalResult(id, w);
      && (w.agentKnown ==> r.agentMessage == w.agent.finalMsg)
      && (w.agentKnown && w.files.Some? ==> r.filesChanged == w.files.value)
      && (w.agentKnown && w.files.None? ==> r.filesChanged == [])
      && (w.agentKnown && w.ctx != CtxCancelled ==>
            r.buildOk == w.buildOk && r.buildError == w.buildMsg && r.previewError == w.previewMsg)
      && (!w.agentKnown || w.ctx == CtxCancelled ==> !r.buildOk && r.buildError == "" && r.previewError == "")
  {
  }

  /** What it emits on the way. */
  lemma {:induction false} Emits(w: World)
    ensures !w.agentKnown ==> Progress(w) == [Status("checkpoint"), Status("agent_running")]
    ensures w.agentKnown && w.ctx == CtxCancelled ==>
      Progress(w) == [Status("checkpoint"), Status("agent_running")] + w.agent.emits
    ensures w.agentKnown && w.ctx != CtxCancelled ==>
      Progress(w) == [Status("checkpoint"), Status("agent_running")] + w.agent.emits
        + [Status("build_check"), Build(w.buildOk, w.buildMsg), Status("health_check")]
  {
    if w.agentKnown {
      ProgressIs(w, Progress(w));
    }
  }

  // --- the task manager ----------------------------------------------------------------

  datatype StartResult = Started | UnsupportedAgent | InProgress | CannotCreate

  /** The supervisor's current task. `started` is every task ever started here. */
  class App {
    var task: Task?
    ghost var started: set<Task>

    /** All tasks but the current one are done, and every one has an agent that is known. */
    ghost predicate OneActive()
      reads this, started
    {
      && (task != null ==> task in started)
      && (forall t | t in started :: Supported(t.agent))
      && forall t | t in started :: t != task ==> t.done
    }

    constructor ()
      ensures task == null && started == {} && OneActive()
    {
      task, started := null, {};
    }

    /** Refused for an unknown agent, then while the current task is unfinished, then if the
        directory or the log of the new one cannot be made; and then nothing changes. */
    method StartTask(agent: string, canCreate: bool) returns (r: StartResult)
      requires OneActive()
      modifies this
      ensures OneActive()
      ensures r == UnsupportedAgent <==> agent !in {"", "opencode"}
      ensures r == InProgress <==> agent in {"", "opencode"} && old(task) != null && !old(task).done
      ensures r == CannotCreate <==> agent in {"", "opencode"} && (old(task) == null || old(task).done) && !canCreate
      ensures r != Started ==> task == old(task) && started == old(started)
      ensures r == Started ==> task != null && fresh(task) && started == old(started) + {task} && task.agent == agent
      ensures r == Started ==> task.Valid() && task.Abs() == Emitted(NewLog(), Status("starting"))
    {
      if !Supported(agent) {
        return UnsupportedAgent;
      }
      if task != null && !task.done {
        return InProgress;
      }
      if !canCreate {
        return CannotCreate;
      }
      var t := new Task(agent);
      t.Emit(Status("starting"));
      task := t;
      started := started + {t};
      return Started;
    }

    /** Running the current task to its end keeps at most one task unfinished. It looks its agent
        up again; for a task that was started here the path for an unknown one is not taken. */
    method RunCurrent(id: string, w: World)
      requires OneActive() && task != null && task.Valid() && task.open && task.file == task.events
      modifies task
      ensures OneActive() && forall t | t in started :: t.done
      ensures var known := w.(agentKnown := true);
        && task.result == Some(FinalResult(id, known))
        && task.events == old(task.events) + Number(|old(task.events)|, Progress(known) + [Done(FinalResult(id, known))])
    {
      RunTask(task, id, w.(agentKnown := Supported(task.agent)));
    }
  }
}
