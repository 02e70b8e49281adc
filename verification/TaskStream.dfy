/** One writer and any number of readers of a coding task's event log
    (control-plane/cmd/runtimed/task.go, control-plane/internal/api/v1_tasks.go).

    Every critical section of the source is one step here; a run is any sequence of steps,
    where a step that is not enabled leaves the state alone. So a statement about
    `Run(Init(), steps)` for all `steps` is a statement about every interleaving. */
module TaskStream {
  import opened Common
  import opened Protocol
  import opened TaskLog

  /** The writer is between emitting `done` and sealing the log while `Announced`. */
  datatype Writer = Running | Announced(res: TaskResult) | Sealing(res: TaskResult)

  /** Where a `streamLive` loop stands. */
  datatype At =
    | Top
    | Delivering(pending: seq<Event>, wait: nat)
    | Blocked(wait: nat)
    | SawDone
    | CtxDone

  datatype Reader = Reader(since: nat, cursor: nat, delivered: seq<Event>, at: At)

  datatype Sys = Sys(log: Log, writer: Writer, readers: seq<Reader>)

  datatype Step =
    | Append(body: Body)
    | Announce(res: TaskResult)
    | Seal
    | Open(since: nat)
    | Read(r: nat)
    | Cancel(r: nat)

  function Init(): Sys {
    Sys(NewLog(), Running, [])
  }

  predicate Ended(rd: Reader) {
    rd.at.SawDone? || rd.at.CtxDone?
  }

  predicate CanRead(l: Log, rd: Reader) {
    !Ended(rd) && (rd.at.Blocked? ==> rd.at.wait in l.closed)
  }

  function ReadStep(l: Log, rd: Reader): Reader {
    match rd.at
    case Top => rd.(at := Delivering(Since(l, rd.cursor), l.ch))
    case Delivering(pending, wait) =>
      if pending == [] then rd.(at := Blocked(wait)) else
        rd.(cursor := rd.cursor + 1,
            delivered := rd.delivered + [pending[0]],
            at := if pending[0].body.Done? then SawDone else Delivering(pending[1..], wait))
    case Blocked(wait) => if wait in l.closed then rd.(at := Top) else rd
    case SawDone => rd
    case CtxDone => rd
  }

  function Next(s: Sys, st: Step): Sys {
    match st
    case Append(body) =>
      if s.writer.Running? && !body.Done? then s.(log := Emitted(s.log, body)) else s
    case Announce(res) =>
      if s.writer.Running? then s.(log := Emitted(s.log, Done(res)), writer := Announced(res)) else s
    case Seal =>
      if s.writer.Announced? then s.(log := Sealed(s.log, s.writer.res), writer := Sealing(s.writer.res)) else s
    case Open(since) => s.(readers := s.readers + [Reader(since, since, [], Top)])
    case Read(r) =>
      if r < |s.readers| then s.(readers := s.readers[r := ReadStep(s.log, s.readers[r])]) else s
    case Cancel(r) =>
      if r < |s.readers| && s.readers[r].at.Blocked?
      then s.(readers := s.readers[r := s.readers[r].(at := CtxDone)]) else s
  }

  function Run(s: Sys, steps: seq<Step>): Sys
    decreases |steps|
  {
    if steps == [] then s else Run(Next(s, steps[0]), steps[1..])
  }

  // --- the invariant -----------------------------------------------------------------

  ghost predicate WriterInv(s: Sys) {
    && LogInv(s.log)
    && match s.writer
       case Running => !HasDone(s.log.events) && s.log.open && !s.log.done
       case Announced(res) => EndsWith(s.log.events, res) && s.log.open && !s.log.done
       case Sealing(res) =>
         EndsWith(s.log.events, res) && !s.log.open && s.log.done && s.log.result == Some(res)
  }

  /** What has been delivered is the slice from `since` to the cursor; a reader that started
      beyond the end has delivered nothing. */
  ghost predicate Sliced(l: Log, rd: Reader) {
    if rd.since <= |l.events|
    then rd.since <= rd.cursor <= |l.events| && rd.delivered == l.events[rd.since..rd.cursor]
    else rd.cursor == rd.since && rd.delivered == []
  }

  /** A channel a reader holds is closed, or is the current one and the reader has, or is
      about to have, everything. */
  ghost predicate Covered(l: Log, have: nat, wait: nat) {
    wait in l.closed || (wait == l.ch && have >= |l.events|)
  }

  ghost predicate ReaderInv(l: Log, rd: Reader) {
    && Sliced(l, rd)
    && (rd.at.SawDone? ==>
          rd.delivered != [] && rd.delivered[|rd.delivered| - 1].body.Done? && rd.cursor == |l.events|)
    && (!rd.at.SawDone? ==> !HasDone(rd.delivered))
    && (rd.at.Delivering? ==>
          && (rd.at.pending == [] || (rd.cursor + |rd.at.pending| <= |l.events|
               && rd.at.pending == l.events[rd.cursor..rd.cursor + |rd.at.pending|]))
          && Covered(l, rd.cursor + |rd.at.pending|, rd.at.wait))
    && (rd.at.Blocked? ==> Covered(l, rd.cursor, rd.at.wait))
  }

  ghost predicate Inv(s: Sys) {
    WriterInv(s) && forall r :: 0 <= r < |s.readers| ==> ReaderInv(s.log, s.readers[r])
  }

  /** One more event leaves every reader's claims true: its channel is now closed. */
  lemma {:induction false} EmitKeepsReader(l: Log, body: Body, rd: Reader)
    requires LogInv(l) && !HasDone(l.events) && ReaderInv(l, rd)
    ensures ReaderInv(Emitted(l, body), rd)
  {
    var evs := Emitted(l, body).events;
    if rd.since <= |l.events| {
      assert evs[rd.since..rd.cursor] == l.events[rd.since..rd.cursor];
      NotSawDone(l, rd);
      if rd.at.Delivering? && rd.at.pending != [] {
        var to := rd.cursor + |rd.at.pending|;
        assert evs[rd.cursor..to] == l.events[rd.cursor..to];
      }
    }
  }

  /** A reader has seen `done` only if it is there. */
  lemma {:induction false} NotSawDone(l: Log, rd: Reader)
    requires ReaderInv(l, rd) && rd.since <= |l.events| && !HasDone(l.events)
    ensures !rd.at.SawDone?
  {
    if rd.delivered != [] {
      var n := |rd.delivered| - 1;
      assert rd.delivered[n] == l.events[rd.since + n];
    }
  }

  lemma {:induction false} EmitKeepsLog(l: Log, body: Body)
    requires LogInv(l) && l.open && !HasDone(l.events)
    ensures LogInv(Emitted(l, body))
    ensures body.Done? ==> EndsWith(Emitted(l, body).events, body.result)
    ensures !body.Done? ==> !HasDone(Emitted(l, body).events)
  {
    assert Emitted(l, body).events[..|l.events|] == l.events;
  }

  /** The one place `done` can be: a `done` at index `i` is the last event. */
  lemma {:induction false} DoneIsLast(evs: seq<Event>, res: TaskResult, i: nat)
    requires EndsWith(evs, res) && i < |evs| && evs[i].body.Done?
    ensures i == |evs| - 1
  {
    var front := evs[..|evs| - 1];
    forall j | 0 <= j < |front|
      ensures !evs[j].body.Done?
    {
      assert !front[j].body.Done?;
    }
  }

  lemma {:induction false} ReadKeepsReader(s: Sys, rd: Reader)
    requires WriterInv(s) && ReaderInv(s.log, rd)
    ensures ReaderInv(s.log, ReadStep(s.log, rd))
  {
    if rd.at.Delivering? && rd.at.pending != [] {
      var i := rd.cursor;
      var e := rd.at.pending[0];
      assert e == s.log.events[i];
      assert rd.delivered + [e] == s.log.events[rd.since..i + 1];
      assert rd.at.pending[1..] == s.log.events[i + 1..i + |rd.at.pending|];
      if e.body.Done? {
        assert HasDone(s.log.events);
        DoneIsLast(s.log.events, s.writer.res, i);
      }
    }
  }

  lemma {:induction false} NextInv(s: Sys, st: Step)
    requires Inv(s)
    ensures Inv(Next(s, st))
  {
    match st
    case Append(body) =>
      if s.writer.Running? && !body.Done? {
        EmitAll(s, body);
      }
    case Announce(res) =>
      if s.writer.Running? {
        EmitAll(s, Done(res));
      }
    case Seal =>
    case Open(since) =>
    case Read(r) =>
      if r < |s.readers| {
        ReadKeepsReader(s, s.readers[r]);
      }
    case Cancel(r) =>
  }

  lemma {:induction false} EmitAll(s: Sys, body: Body)
    requires Inv(s) && s.writer.Running?
    ensures forall r :: 0 <= r < |s.readers| ==> ReaderInv(Emitted(s.log, body), s.readers[r])
    ensures LogInv(Emitted(s.log, body))
    ensures body.Done? ==> EndsWith(Emitted(s.log, body).events, body.result)
    ensures !body.Done? ==> !HasDone(Emitted(s.log, body).events)
  {
    EmitKeepsLog(s.log, body);
    forall r | 0 <= r < |s.readers| {
      EmitKeepsReader(s.log, body, s.readers[r]);
    }
  }

  lemma {:induction false} RunInv(s: Sys, steps: seq<Step>)
    requires Inv(s)
    ensures Inv(Run(s, steps))
    decreases |steps|
  {
    if steps != [] {
      NextInv(s, steps[0]);
      RunInv(Next(s, steps[0]), steps[1..]);
    }
  }

  // --- what every interleaving keeps --------------------------------------------------

  /** Every reader has delivered exactly the events from its start to its cursor, in order;
      ids are indices; `done` occurs only as the very last event. */
  lemma {:induction false} DeliversSlice(steps: seq<Step>, r: nat)
    requires r < |Run(Init(), steps).readers|
    ensures var s := Run(Init(), steps); var rd := s.readers[r];
      && (rd.since <= |s.log.events| ==>
            rd.since <= rd.cursor <= |s.log.events| && rd.delivered == s.log.events[rd.since..rd.cursor])
      && (rd.since > |s.log.events| ==> rd.delivered == [])
      && (forall i :: 0 <= i < |s.log.events| ==> s.log.events[i].id == i)
      && (forall i :: 0 <= i < |s.log.events| && s.log.events[i].body.Done? ==> i == |s.log.events| - 1)
  {
    RunInv(Init(), steps);
    var s := Run(Init(), steps);
    forall i | 0 <= i < |s.log.events| && s.log.events[i].body.Done?
      ensures i == |s.log.events| - 1
    {
      assert HasDone(s.log.events);
      DoneIsLast(s.log.events, s.writer.res, i);
    }
  }

  /** No wake-up is lost: a reader that cannot move has ended or has delivered every event
      there is, and the channel it waits on is the very one the next event will close. */
  lemma {:induction false} NoLostWakeup(steps: seq<Step>, r: nat, body: Body)
    requires r < |Run(Init(), steps).readers|
    ensures var s := Run(Init(), steps); var rd := s.readers[r];
      !CanRead(s.log, rd) && !Ended(rd) ==>
        && rd.at == Blocked(s.log.ch)
        && rd.cursor >= |s.log.events|
        && CanRead(Emitted(s.log, body), rd)
  {
    RunInv(Init(), steps);
  }

  // --- a sealed log: who terminates ----------------------------------------------------

  function Alone(l: Log, rd: Reader, n: nat): Reader
    decreases n
  {
    if n == 0 then rd else Alone(l, ReadStep(l, rd), n - 1)
  }

  function Budget(l: Log, rd: Reader): nat
    requires rd.cursor <= |l.events|
  {
    5 * (|l.events| - rd.cursor) +
    match rd.at
    case Delivering(pending, _) => if pending == [] then 4 else 1
    case Blocked(_) => 3
    case Top => 2
    case SawDone => 0
    case CtxDone => 0
  }

  /** Nothing but its own steps moves a reader once the log is sealed. */
  lemma {:induction false} SealedLogIsFixed(s: Sys, st: Step)
    requires s.writer.Sealing?
    ensures Next(s, st).log == s.log && Next(s, st).writer == s.writer
    ensures forall r | 0 <= r < |s.readers| && st != Cancel(r) ::
      Next(s, st).readers[r] == if st == Read(r) then ReadStep(s.log, s.readers[r]) else s.readers[r]
  {
  }

  /** A reader that has not seen the terminal event has not reached the end. */
  lemma {:induction false} StillBehind(l: Log, rd: Reader, res: TaskResult)
    requires ReaderInv(l, rd) && EndsWith(l.events, res)
    requires rd.since < |l.events| && !rd.at.SawDone?
    ensures rd.cursor < |l.events|
  {
    if rd.cursor > rd.since {
      assert !rd.delivered[|rd.delivered| - 1].body.Done?;
      assert rd.delivered[|rd.delivered| - 1] == l.events[rd.cursor - 1];
    }
  }

  lemma {:induction false} Drains(s: Sys, rd: Reader, n: nat)
    requires WriterInv(s) && s.writer.Sealing? && ReaderInv(s.log, rd)
    requires rd.since < |s.log.events| && !rd.at.CtxDone?
    requires rd.at.SawDone? || n >= Budget(s.log, rd)
    ensures Alone(s.log, rd, n).at.SawDone?
    ensures Alone(s.log, rd, n).since == rd.since && ReaderInv(s.log, Alone(s.log, rd, n))
    decreases n
  {
    if !rd.at.SawDone? {
      StillBehind(s.log, rd, s.writer.res);
      assert rd.at.Delivering? && rd.at.pending == [] ==> rd.at.wait in s.log.closed;
      assert rd.at.Blocked? ==> rd.at.wait in s.log.closed;
    }
    if n > 0 {
      ReadKeepsReader(s, rd);
      Drains(s, ReadStep(s.log, rd), n - 1);
    }
  }

  lemma {:induction false} NeverDrains(s: Sys, rd: Reader, n: nat)
    requires WriterInv(s) && ReaderInv(s.log, rd)
    requires rd.since >= |s.log.events| && rd.cursor == rd.since && rd.delivered == []
    ensures !Alone(s.log, rd, n).at.SawDone? && Alone(s.log, rd, n).delivered == []
    decreases n
  {
    if n > 0 {
      ReadKeepsReader(s, rd);
      NeverDrains(s, ReadStep(s.log, rd), n - 1);
    }
  }

  /** Once the log is sealed, a reader that is not cancelled reaches the terminal event if
      and only if it started at or before the index of that event. One that started beyond it
      delivers nothing for ever. */
  lemma {:induction false} TerminatesIff(steps: seq<Step>, r: nat)
    requires r < |Run(Init(), steps).readers|
    requires Run(Init(), steps).writer.Sealing? && !Run(Init(), steps).readers[r].at.CtxDone?
    ensures var s := Run(Init(), steps); var rd := s.readers[r];
      (exists n: nat :: Alone(s.log, rd, n).at.SawDone?) <==> rd.since <= |s.log.events| - 1
  {
    RunInv(Init(), steps);
    var s := Run(Init(), steps);
    var rd := s.readers[r];
    if rd.since < |s.log.events| {
      var n := Budget(s.log, rd);
      Drains(s, rd, n);
    } else {
      forall n: nat
        ensures !Alone(s.log, rd, n).at.SawDone?
      {
        NeverDrains(s, rd, n);
      }
    }
  }

  // --- the writer is one run of a task --------------------------------------------------------------

  /** What a run appends before its terminal event, the start's own event included. */
  function Bodies(w: World): seq<Body> {
    [Status("starting")] + Progress(w)
  }

  /** The critical sections a task goes through, from its start to its end. */
  function Script(id: string, w: World): seq<Step> {
    seq(|Bodies(w)|, i requires 0 <= i < |Bodies(w)| => Append(Bodies(w)[i])) + [Announce(FinalResult(id, w)), Seal]
  }

  predicate IsWriterStep(st: Step) {
    st.Append? || st.Announce? || st.Seal?
  }

  function WriterSteps(steps: seq<Step>): seq<Step> {
    if steps == [] then []
    else
      var last := steps[|steps| - 1];
      WriterSteps(steps[..|steps| - 1]) + if IsWriterStep(last) then [last] else []
  }

  lemma {:induction false} RunSnoc(s: Sys, steps: seq<Step>, st: Step)
    ensures Run(s, steps + [st]) == Next(Run(s, steps), st)
    decreases |steps|
  {
    if steps == [] {
      assert steps + [st] == [st] && [st][1..] == [];
    } else {
      assert (steps + [st])[1..] == steps[1..] + [st];
      RunSnoc(Next(s, steps[0]), steps[1..], st);
    }
  }

  lemma {:induction false} OnlyTheWriterWrites(s: Sys, a: Sys, st: Step)
    requires s.log == a.log && s.writer == a.writer
    ensures IsWriterStep(st) ==> Next(s, st).log == Next(a, st).log && Next(s, st).writer == Next(a, st).writer
    ensures !IsWriterStep(st) ==> Next(s, st).log == s.log && Next(s, st).writer == s.writer
  {
  }

  /** Readers do not touch the log: in any interleaving it is as if the writer ran alone. */
  lemma {:induction false} WriterAlone(steps: seq<Step>)
    ensures Run(Init(), steps).log == Run(Init(), WriterSteps(steps)).log
    ensures Run(Init(), steps).writer == Run(Init(), WriterSteps(steps)).writer
    decreases |steps|
  {
    if steps != [] {
      var front, last := steps[..|steps| - 1], steps[|steps| - 1];
      assert steps == front + [last];
      WriterAlone(front);
      RunSnoc(Init(), front, last);
      OnlyTheWriterWrites(Run(Init(), front), Run(Init(), WriterSteps(front)), last);
      if IsWriterStep(last) {
        RunSnoc(Init(), WriterSteps(front), last);
      } else {
        assert WriterSteps(steps) == WriterSteps(front);
      }
    }
  }

  /** The log and the writer after the first `p` sections of a run. */
  ghost predicate GotTo(s: Sys, id: string, w: World, p: nat) {
    var bodies, res := Bodies(w), FinalResult(id, w);
    if p <= |bodies| then s.writer == Running && s.log.events == Number(0, bodies[..p])
    else
      && s.log.events == Number(0, bodies + [Done(res)])
      && s.writer == if p == |bodies| + 1 then Announced(res) else Sealing(res)
  }

  lemma {:induction false} AppendStep(s: Sys, bodies: seq<Body>, p: nat)
    requires p < |bodies| && !bodies[p].Done? && s.writer == Running && s.log.events == Number(0, bodies[..p])
    ensures var n := Next(s, Append(bodies[p])); n.writer == Running && n.log.events == Number(0, bodies[..p + 1])
  {
    assert bodies[..p + 1] == bodies[..p] + [bodies[p]];
    NumberSnoc(0, bodies[..p], bodies[p]);
  }

  lemma {:induction false} ScriptStep(s: Sys, id: string, w: World, p: nat)
    requires ProgressOnly(w.agent.emits) && p < |Script(id, w)| && GotTo(s, id, w, p)
    ensures GotTo(Next(s, Script(id, w)[p]), id, w, p + 1)
  {
    var bodies := Bodies(w);
    if p < |bodies| {
      assert p > 0 ==> bodies[p] == Progress(w)[p - 1];
      AppendStep(s, bodies, p);
    } else if p == |bodies| {
      assert bodies[..p] == bodies;
      NumberSnoc(0, bodies, Done(FinalResult(id, w)));
    }
  }

  lemma {:induction false} ScriptGetsTo(id: string, w: World, p: nat)
    requires ProgressOnly(w.agent.emits) && p <= |Script(id, w)|
    ensures GotTo(Run(Init(), Script(id, w)[..p]), id, w, p)
    decreases p
  {
    var script := Script(id, w);
    if p == 0 {
      assert script[..0] == [] && Bodies(w)[..0] == [];
    } else {
      ScriptGetsTo(id, w, p - 1);
      ScriptStep(Run(Init(), script[..p - 1]), id, w, p - 1);
      assert script[..p] == script[..p - 1] + [script[p - 1]];
      RunSnoc(Init(), script[..p - 1], script[p - 1]);
    }
  }

  /** In any interleaving of a run with its readers, cut off anywhere, the log holds what the run
      has appended so far, exactly as `RunTask` appends it to the log of a task that was started;
      and from the terminal event on the writer carries the run's result. */
  lemma {:induction false} InterleavedRun(steps: seq<Step>, id: string, w: World)
    requires WriterSteps(steps) <= Script(id, w) && ProgressOnly(w.agent.emits)
    ensures GotTo(Run(Init(), steps), id, w, |WriterSteps(steps)|)
    ensures !Run(Init(), steps).writer.Running? ==>
      && Run(Init(), steps).writer.res == FinalResult(id, w)
      && Run(Init(), steps).log.events == Number(0, [Status("starting")] + Progress(w) + [Done(FinalResult(id, w))])
  {
    WriterAlone(steps);
    ScriptGetsTo(id, w, |WriterSteps(steps)|);
    assert WriterSteps(steps) == Script(id, w)[..|WriterSteps(steps)|];
  }

  // --- reconnecting ---------------------------------------------------------------------

  /** The index `v1TaskEvents` asks for: the last delivered id plus one, unless `?since=`
      overrides it; runtimed then reads anything not positive as 0. */
  function ResumeIndex(lastEventId: Option<int>, since: Option<int>): nat {
    var n := if lastEventId.Some? then lastEventId.value + 1 else 0;
    var m := if since.Some? && since.value >= 0 then since.value else n;
    if m > 0 then m else 0
  }

  function LastId(received: seq<Event>): Option<int> {
    if received == [] then None else Some(received[|received| - 1].id)
  }

  function FileFrom(lines: seq<Event>, since: nat): seq<Event> {
    if since <= |lines| then lines[since..] else []
  }

  /** One connection of a client, the `?since=` of its URL, and how much of what was written to it
      arrived before it broke: served by a live reader, or, once a newer task is current, from the
      finished task's file. */
  datatype Session =
    | Live(reader: nat, query: Option<int>, got: nat)
    | Replayed(since: nat, query: Option<int>, got: nat)

  /** What was written to a session. */
  ghost function Written(s: Sys, x: Session): seq<Event>
    requires x.Live? ==> x.reader < |s.readers|
  {
    match x
    case Live(r, _, _) => s.readers[r].delivered
    case Replayed(since, _, _) => FileFrom(s.log.file, since)
  }

  ghost function StartOf(s: Sys, x: Session): nat
    requires x.Live? ==> x.reader < |s.readers|
  {
    match x
    case Live(r, _, _) => s.readers[r].since
    case Replayed(since, _, _) => since
  }

  /** A file is replayed only when its task is over. */
  ghost predicate Plausible(s: Sys, ss: seq<Session>) {
    forall k :: 0 <= k < |ss| ==>
      && (ss[k].Live? ==> ss[k].reader < |s.readers|)
      && (ss[k].Replayed? ==> s.writer.Sealing?)
      && ss[k].got <= |Written(s, ss[k])|
  }

  ghost function Received(s: Sys, ss: seq<Session>): seq<Event>
    requires Plausible(s, ss)
    decreases |ss|
  {
    if ss == [] then [] else
      var last := ss[|ss| - 1];
      Received(s, ss[..|ss| - 1]) + Written(s, last)[..last.got]
  }

  /** Every session starts where the Last-Event-ID rule says (section 9.2.4 of the WHATWG
      HTML standard), one past the last event the client has seen, unless its URL overrides it. */
  ghost predicate Reconnects(s: Sys, ss: seq<Session>)
    requires Plausible(s, ss)
  {
    forall k :: 0 <= k < |ss| ==> StartOf(s, ss[k]) == ResumeIndex(LastId(Received(s, ss[..k])), ss[k].query)
  }

  lemma {:induction false} FrontReconnects(s: Sys, ss: seq<Session>)
    requires ss != [] && Plausible(s, ss) && Reconnects(s, ss)
    ensures Plausible(s, ss[..|ss| - 1]) && Reconnects(s, ss[..|ss| - 1])
    ensures StartOf(s, ss[|ss| - 1]) == ResumeIndex(LastId(Received(s, ss[..|ss| - 1])), ss[|ss| - 1].query)
  {
    var front := ss[..|ss| - 1];
    assert Plausible(s, front);
    forall k | 0 <= k < |front|
      ensures StartOf(s, front[k]) == ResumeIndex(LastId(Received(s, front[..k])), front[k].query)
    {
      assert front[..k] == ss[..k];
      assert front[k] == ss[k];
    }
  }

  /** Live or replayed, what a session was given is a slice of the log from where it started. */
  lemma {:induction false} WrittenIsSlice(s: Sys, x: Session)
    requires Inv(s) && (x.Live? ==> x.reader < |s.readers|) && StartOf(s, x) <= |s.log.events|
    ensures var since := StartOf(s, x);
      since + |Written(s, x)| <= |s.log.events| && Written(s, x) == s.log.events[since..since + |Written(s, x)|]
  {
    if x.Live? {
      assert ReaderInv(s.log, s.readers[x.reader]);
    }
  }

  /** A prefix, followed by some of the slice that starts right after it, is a longer prefix. */
  lemma {:induction false} Extend(l: Log, got: seq<Event>, more: seq<Event>, n: nat)
    requires LogInv(l) && n <= |more| && |got| + |more| <= |l.events|
    requires got == l.events[..|got|] && more == l.events[|got|..|got| + |more|]
    ensures var all := got + more[..n]; |all| <= |l.events| && all == l.events[..|all|]
  {
    assert more[..n] == l.events[|got|..|got| + n];
  }

  /** Resuming one past the last id is resuming right after what was received. */
  lemma {:induction false} ResumesAfter(l: Log, got: seq<Event>)
    requires LogInv(l) && Prefix(l, got)
    ensures ResumeIndex(LastId(got), None) == |got|
  {
    assert got != [] ==> got[|got| - 1] == l.events[|got| - 1];
  }

  /** Each of the first events once and in order, and nothing else. */
  ghost predicate Prefix(l: Log, got: seq<Event>) {
    |got| <= |l.events| && got == l.events[..|got|]
  }

  /** The override of session `k` is absent, is negative and so ignored, or is the number of events
      the client has received. */
  ghost predicate InStep(s: Sys, ss: seq<Session>, k: nat)
    requires Plausible(s, ss) && k < |ss|
  {
    ss[k].query.None? || ss[k].query.value < 0 || ss[k].query.value == |Received(s, ss[..k])|
  }

  /** What one more session adds to a prefix leaves a prefix exactly if nothing of it arrived or it
      started right after that prefix. */
  lemma {:induction false} StaysPrefixIff(s: Sys, got: seq<Event>, x: Session)
    requires Inv(s) && Prefix(s.log, got)
    requires (x.Live? ==> x.reader < |s.readers|) && x.got <= |Written(s, x)|
    ensures Prefix(s.log, got + Written(s, x)[..x.got]) <==> x.got == 0 || StartOf(s, x) == |got|
  {
    var all := got + Written(s, x)[..x.got];
    if x.got == 0 {
      assert all == got;
    } else {
      StartsWithin(s, x);
      WrittenIsSlice(s, x);
      if StartOf(s, x) == |got| {
        Extend(s.log, got, Written(s, x), x.got);
      } else {
        assert all[|got|] == Written(s, x)[0] == s.log.events[StartOf(s, x)];
        if |got| < |s.log.events| {
          assert all[|got|] != s.log.events[|got|];
        }
      }
    }
  }

  lemma {:induction false} StartsWithin(s: Sys, x: Session)
    requires Inv(s) && (x.Live? ==> x.reader < |s.readers|) && Written(s, x) != []
    ensures StartOf(s, x) <= |s.log.events|
  {
    if x.Live? {
      assert ReaderInv(s.log, s.readers[x.reader]);
    }
  }

  /** Every session of which anything arrived was in step. */
  ghost predicate AllInStep(s: Sys, ss: seq<Session>)
    requires Plausible(s, ss)
  {
    forall k :: 0 <= k < |ss| ==> ss[k].got == 0 || InStep(s, ss, k)
  }

  lemma {:induction false} AllInStepSnoc(s: Sys, ss: seq<Session>)
    requires ss != [] && Plausible(s, ss)
    ensures var n := |ss| - 1;
      Plausible(s, ss[..n]) && (AllInStep(s, ss) <==> AllInStep(s, ss[..n]) && (ss[n].got == 0 || InStep(s, ss, n)))
  {
    var n := |ss| - 1;
    var front := ss[..n];
    forall k | 0 <= k < n
      ensures front[k] == ss[k] && front[..k] == ss[..k]
    {
    }
    assert forall k :: 0 <= k < n ==> (InStep(s, front, k) <==> InStep(s, ss, k));
    if AllInStep(s, ss) {
      assert forall k :: 0 <= k < n ==> front[k].got == 0 || InStep(s, front, k);
    }
  }

  /** In step is where a client resumes that has received a prefix. */
  lemma {:induction false} InStepIff(s: Sys, ss: seq<Session>)
    requires LogInv(s.log) && ss != [] && Plausible(s, ss) && Reconnects(s, ss)
    requires Prefix(s.log, Received(s, ss[..|ss| - 1]))
    ensures var n := |ss| - 1; InStep(s, ss, n) <==> StartOf(s, ss[n]) == |Received(s, ss[..n])|
  {
    ResumesAfter(s.log, Received(s, ss[..|ss| - 1]));
  }

  lemma {:induction false} ReceivedIsPrefixIff(s: Sys, ss: seq<Session>)
    requires Inv(s) && Plausible(s, ss) && Reconnects(s, ss)
    ensures Prefix(s.log, Received(s, ss)) <==> AllInStep(s, ss)
    decreases |ss|
  {
    if ss != [] {
      var n := |ss| - 1;
      FrontReconnects(s, ss);
      ReceivedIsPrefixIff(s, ss[..n]);
      AllInStepSnoc(s, ss);
      var got := Received(s, ss[..n]);
      if Prefix(s.log, got) {
        InStepIff(s, ss);
        StaysPrefixIff(s, got, ss[n]);
      } else {
        assert Received(s, ss)[..|got|] == got;
      }
    }
  }

  lemma {:induction false} DoneIsAll(s: Sys, got: seq<Event>)
    requires WriterInv(s) && Prefix(s.log, got) && HasDone(got)
    ensures got == s.log.events
  {
    var i :| 0 <= i < |got| && got[i].body.Done?;
    assert s.log.events[i].body.Done?;
  }

  /** However often a client is cut off and connects again, to the live task or to the file it left,
      it receives a prefix of the log, each event once and in order, exactly if every session of
      which anything arrived resumed by Last-Event-ID alone or with an override that is the number
      of events received before. With the terminal event it then has the whole log. */
  lemma {:induction false} ExactlyOnceIff(steps: seq<Step>, ss: seq<Session>)
    requires Plausible(Run(Init(), steps), ss) && Reconnects(Run(Init(), steps), ss)
    ensures var s := Run(Init(), steps); var got := Received(s, ss);
      && (Prefix(s.log, got) <==> AllInStep(s, ss))
      && (Prefix(s.log, got) && HasDone(got) ==> got == s.log.events)
  {
    RunInv(Init(), steps);
    var s := Run(Init(), steps);
    var got := Received(s, ss);
    ReceivedIsPrefixIff(s, ss);
    if Prefix(s.log, got) && HasDone(got) {
      DoneIsAll(s, got);
    }
  }

  /** The last connection was given everything up to the terminal event and all of it arrived. */
  ghost predicate Completed(s: Sys, ss: seq<Session>)
    requires Plausible(s, ss)
  {
    ss != [] &&
    var last := ss[|ss| - 1];
    (last.Live? ==> s.readers[last.reader].at.SawDone?) && last.got == |Written(s, last)|
  }

  lemma {:induction false} CompletedIsWhole(s: Sys, x: Session)
    requires Inv(s) && (x.Live? ==> x.reader < |s.readers| && s.readers[x.reader].at.SawDone?)
    requires x.Replayed? ==> s.writer.Sealing?
    requires StartOf(s, x) <= |s.log.events|
    ensures StartOf(s, x) + |Written(s, x)| == |s.log.events|
  {
    if x.Live? {
      assert ReaderInv(s.log, s.readers[x.reader]);
    }
  }

  /** In particular a client that resumes so every time receives a prefix of the log, and the whole
      of it once its last connection reached the terminal event. */
  lemma {:induction false} ExactlyOnce(steps: seq<Step>, ss: seq<Session>)
    requires Plausible(Run(Init(), steps), ss) && Reconnects(Run(Init(), steps), ss)
    requires forall k :: 0 <= k < |ss| ==> InStep(Run(Init(), steps), ss, k)
    ensures var s := Run(Init(), steps); var got := Received(s, ss);
      Prefix(s.log, got) && (Completed(s, ss) ==> got == s.log.events)
  {
    RunInv(Init(), steps);
    var s := Run(Init(), steps);
    ReceivedIsPrefixIff(s, ss);
    if Completed(s, ss) {
      var n := |ss| - 1;
      FrontReconnects(s, ss);
      AllInStepSnoc(s, ss);
      ReceivedIsPrefixIff(s, ss[..n]);
      InStepIff(s, ss);
      CompletedIsWhole(s, ss[n]);
      assert Written(s, ss[n])[..ss[n].got] == Written(s, ss[n]);
    }
  }

  /** A browser's event source connects again with the URL it was given. One whose URL says
      `?since=0` and that is cut off after the first event receives that event again. */
  lemma {:induction false} ResentQueryRepeats() returns (steps: seq<Step>, ss: seq<Session>)
    ensures var s := Run(Init(), steps);
      && Plausible(s, ss) && Reconnects(s, ss)
      && |ss| == 2 && ss[0].query == ss[1].query == Some(0)
      && |s.log.events| == 1 && Received(s, ss) == [s.log.events[0], s.log.events[0]]
  {
    steps := [Append(Status("starting")), Open(0), Read(0), Read(0), Open(0), Read(1), Read(1)];
    ss := [Live(0, Some(0), 1), Live(1, Some(0), 1)];
    var s1 := Next(Init(), steps[0]);
    var e := s1.log.events[0];
    assert s1.log.events == [e];
    var s2 := Next(s1, steps[1]);
    var s3 := Next(s2, steps[2]);
    assert s3.readers[0].at == Delivering([e], s3.log.ch);
    var s4 := Next(s3, steps[3]);
    assert s4.readers[0].delivered == [e];
    var s5 := Next(s4, steps[4]);
    var s6 := Next(s5, steps[5]);
    assert s6.readers[1].at == Delivering([e], s6.log.ch);
    var s7 := Next(s6, steps[6]);
    assert s7.readers[1].delivered == [e] && s7.readers[0].delivered == [e];
    assert Run(Init(), steps) == s7 by {
      RunSeven(Init(), steps);
    }
    assert ss[..0] == [] && ss[..1] == [ss[0]] && ss[..1][..0] == [];
    assert Plausible(s7, ss);
    assert Received(s7, ss[..1]) == [e];
  }

  lemma {:induction false} RunSeven(s: Sys, st: seq<Step>)
    requires |st| == 7
    ensures Run(s, st) == Next(Next(Next(Next(Next(Next(Next(s, st[0]), st[1]), st[2]), st[3]), st[4]), st[5]), st[6])
  {
    var a := Next(Next(s, st[0]), st[1]);
    var b := Next(Next(a, st[2]), st[3]);
    assert Run(s, st) == Run(a, st[1..][1..]) && st[1..][1..] == st[2..];
    assert Run(a, st[2..]) == Run(b, st[2..][1..][1..]) && st[2..][1..][1..] == st[4..];
    var c := Next(Next(b, st[4]), st[5]);
    assert Run(b, st[4..]) == Run(c, st[4..][1..][1..]) && st[4..][1..][1..] == st[6..];
    assert Run(c, st[6..]) == Next(c, st[6]);
  }

  // --- replaying the file -----------------------------------------------------------------

  /** `handleTaskEvents` for a past task: skip `since` lines of events.jsonl. */
  method Replay(lines: seq<Event>, since: nat) returns (out: seq<Event>)
    ensures out == FileFrom(lines, since)
  {
    out := [];
    var line := 0;
    while line < |lines|
      invariant line <= |lines|
      invariant out == if since <= line then lines[since..line] else []
    {
      if line >= since {
        out := out + [lines[line]];
      }
      line := line + 1;
    }
  }

  /** A live reader that reached the terminal event delivered exactly what a replay of the
      file from the same line gives. */
  lemma {:induction false} ReplayEqualsLive(steps: seq<Step>, r: nat)
    requires r < |Run(Init(), steps).readers| && Run(Init(), steps).readers[r].at.SawDone?
    ensures var s := Run(Init(), steps); var rd := s.readers[r];
      rd.delivered == FileFrom(s.log.file, rd.since)
  {
    RunInv(Init(), steps);
  }

  // --- a log finalised after a crash -----------------------------------------------------

  /** `recoverInterruptedTasks` appends a terminal event whose id is left at 0. */
  function Recovered(file: seq<Event>, res: TaskResult): seq<Event> {
    file + [Event(0, Done(res))]
  }

  ghost predicate IdsAreIndices(evs: seq<Event>) {
    forall i :: 0 <= i < |evs| ==> evs[i].id == i
  }

  /** Recovery keeps ids equal to indices exactly when the interrupted log was empty; so on
      a non-empty one, resuming by the last id would start over at index 1. */
  lemma {:induction false} RecoveryKeepsIdsIff(file: seq<Event>, res: TaskResult)
    requires IdsAreIndices(file)
    ensures IdsAreIndices(Recovered(file, res)) <==> file == []
    ensures ResumeIndex(LastId(Recovered(file, res)), None) == |Recovered(file, res)| <==> file == []
  {
    assert Recovered(file, res)[|file|].id == 0;
  }
}
