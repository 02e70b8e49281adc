/** One wake request on its own (control-plane/internal/wake/handler.go `serve`): the sections
    under the handler's mutex and the body a leader runs under the id lock. */
module WakeHandler {
  import opened Common
  import opened WakeProtocol
  import Rows

  datatype RowStatus = Running | Stopped | Creating | InError

  datatype Row = Row(status: RowStatus, isPrivate: bool)

  datatype Admission = Admitted | Denied | Unreadable

  /** What the body observes from outside; of the update that marks the row running, whether its
      statement succeeds if the writer runs it, and whether the leader waits for that. */
  datatype World = World(
    storeReadable: bool,
    gateDenies: bool,
    admission: Admission,
    startOk: bool,
    inspectOk: bool,
    egress: bool,
    hasBridgeIp: bool,
    egressAddOk: bool,
    markRuns: bool,
    patience: Rows.Patience)

  /** The row is marked running, whatever the leader is told. */
  predicate MarkApplied(w: World) {
    w.markRuns && !w.patience.LeavesUnapplied?
  }

  /** The leader is told that it is. */
  predicate Marked(w: World) {
    w.markRuns && w.patience.Stays?
  }

  /** The two are what the store call makes of a stopped row and answers. */
  lemma {:induction false} MarkIsSubmitted(db: Rows.Db, id: string, container: string, group: string, now: int,
                                           failAt: nat, w: World)
    requires id in db.sandboxes && db.sandboxes[id].status == Rows.RowStatus.Stopped
    requires w.markRuns <==> failAt > 0
    ensures var (next, reply) :=
        Rows.Submitted(db, Rows.Update(id, Rows.MarkRunningWoke(container, group, now), now), failAt, w.patience);
      && (reply == Rows.Replied(Rows.Outcome.Ok) <==> Marked(w))
      && id in next.sandboxes
      && (next.sandboxes[id].status == Rows.RowStatus.Running <==> MarkApplied(w))
      && (next == db <==> !MarkApplied(w))
  {
  }

  /** The exits reached after the docker start call was made. */
  predicate Starts(e: Exit) {
    e == StartFailed || e == InspectFailed || e == NoBridgeIp || e == EgressFailed || e == MarkFailed || e == Woken
  }

  /** The row was seen, with this status. */
  predicate Saw(row: Option<Row>, status: RowStatus, w: World) {
    w.storeReadable && row.Some? && row.value.status == status
  }

  /** A browser's wake of a private sandbox that the preview gate turns away. */
  predicate Gated(row: Option<Row>, html: bool, w: World) {
    Saw(row, Stopped, w) && html && row.value.isPrivate && w.gateDenies
  }

  predicate AsksAdmission(row: Option<Row>, html: bool, w: World) {
    Saw(row, Stopped, w) && !Gated(row, html, w)
  }

  predicate MayStart(row: Option<Row>, html: bool, w: World) {
    AsksAdmission(row, html, w) && w.admission == Admitted
  }

  /** The container is up and inspected. */
  predicate IsUp(row: Option<Row>, html: bool, w: World) {
    MayStart(row, html, w) && w.startOk && w.inspectOk
  }

  predicate Policed(w: World) {
    w.egress ==> w.hasBridgeIp && w.egressAddOk
  }

  /** Each exit, exactly on its condition. `row` is the sandbox's row before the wake. */
  predicate ExitIs(e: Exit, row: Option<Row>, html: bool, w: World) {
    && (e == StoreFailed <==> !w.storeReadable)
    && (e == NotFound <==> w.storeReadable && row.None?)
    && (e == AlreadyRunning <==> Saw(row, Running, w))
    && (e == ErrorRow <==> Saw(row, InError, w))
    && (e == StillCreating <==> Saw(row, Creating, w))
    && (e == AuthDenied <==> Gated(row, html, w))
    && (e == AdmitReadFailed <==> AsksAdmission(row, html, w) && w.admission == Unreadable)
    && (e == AdmitDenied <==> AsksAdmission(row, html, w) && w.admission == Denied)
    && (e == StartFailed <==> MayStart(row, html, w) && !w.startOk)
    && (e == InspectFailed <==> MayStart(row, html, w) && w.startOk && !w.inspectOk)
    && (e == NoBridgeIp <==> IsUp(row, html, w) && w.egress && !w.hasBridgeIp)
    && (e == EgressFailed <==> IsUp(row, html, w) && w.egress && w.hasBridgeIp && !w.egressAddOk)
    && (e == MarkFailed <==> IsUp(row, html, w) && Policed(w) && !Marked(w))
    && (e == Woken <==> IsUp(row, html, w) && Policed(w) && Marked(w))
  }

  /** The row is marked running on this exit. */
  predicate Marks(e: Exit, w: World) {
    e == Woken || (e == MarkFailed && MarkApplied(w))
  }

  /** What a wake that took exit `e` has made of the rows: exactly its own is marked running, if it
      is. After a failed mark it is still stopped exactly if the mark was not carried out. */
  ghost predicate Serves(before: map<string, Row>, after: map<string, Row>, id: string, html: bool, w: World, e: Exit) {
    && ExitIs(e, if id in before then Some(before[id]) else None, html, w)
    && (Marks(e, w) ==> id in before)
    && after == (if Marks(e, w) then before[id := before[id].(status := Running)] else before)
    && (e == MarkFailed ==> id in after && (after[id].status == Stopped <==> !MarkApplied(w)))
  }

  /** The exit on which the checks before the start end the wake, if they do, in their order. */
  function RefusedBy(row: Option<Row>, html: bool, w: World): Option<Exit> {
    if !w.storeReadable then Some(StoreFailed)
    else if row.None? then Some(NotFound)
    else
      match row.value.status
      case Running => Some(AlreadyRunning)
      case InError => Some(ErrorRow)
      case Creating => Some(StillCreating)
      case Stopped =>
        if html && row.value.isPrivate && w.gateDenies then Some(AuthDenied)
        else if w.admission == Unreadable then Some(AdmitReadFailed)
        else if w.admission == Denied then Some(AdmitDenied)
        else None
  }

  function StartedAs(w: World): Exit {
    if !w.startOk then StartFailed
    else if !w.inspectOk then InspectFailed
    else if w.egress && !w.hasBridgeIp then NoBridgeIp
    else if w.egress && !w.egressAddOk then EgressFailed
    else if !Marked(w) then MarkFailed
    else Woken
  }

  function ExitFor(row: Option<Row>, html: bool, w: World): Exit {
    match RefusedBy(row, html, w)
    case Some(e) => e
    case None => StartedAs(w)
  }

  lemma {:induction false} ExitForIs(row: Option<Row>, html: bool, w: World)
    ensures ExitIs(ExitFor(row, html, w), row, html, w)
  {
    if RefusedBy(row, html, w).None? {
      assert MayStart(row, html, w);
    }
  }

  /** A container is started exactly for a stopped row that the gate lets through and admission
      admits. */
  lemma {:induction false} StartsIff(e: Exit, row: Option<Row>, html: bool, w: World)
    requires ExitIs(e, row, html, w)
    ensures Starts(e) <==>
      && w.storeReadable && row.Some? && row.value.status == Stopped
      && !(html && row.value.isPrivate && w.gateDenies)
      && w.admission == Admitted
  {
  }

  /** On what a leader has seen, its followers answer as it does exactly if the row could not be
      read, or was running, or was stopped and the wake got past the gate and was not denied
      admission. */
  lemma {:induction false} FollowerAgreesOnIff(s0: State, steps: seq<Step>, t: nat, row: Option<Row>, html: bool,
                                               w: World)
    requires Initial(s0) && t < |Run(s0, steps).threads|
    requires Run(s0, steps).threads[t].Request? && Run(s0, steps).threads[t].pc.Answered?
    requires var s := Run(s0, steps); var pc := s.threads[t].pc;
      pc.w < |s.wakes| && s.wakes[pc.w].leader < |s.threads|
      && var ld := s.threads[s.wakes[pc.w].leader];
         ld.Request? && (ld.pc.Led? ==> ExitIs(ld.pc.e, row, html, w))
    ensures var s := Run(s0, steps); var pc := s.threads[t].pc;
      var ld := s.threads[s.wakes[pc.w].leader];
      && ld.pc.Led?
      && (pc.success == AnswersSuccess(ld.pc.e) <==>
            !w.storeReadable || Saw(row, Running, w)
            || (AsksAdmission(row, html, w) && w.admission != Denied))
  {
    FollowerAgreesIff(s0, steps, t);
  }

  class InflightWake {
    var closed: bool
    var err: bool

    constructor ()
      ensures !closed && !err
    {
      closed, err := false, false;
    }
  }

  class Handler {
    var inflight: map<string, InflightWake>
    var rows: map<string, Row>
    var starts: seq<string>

    constructor (rows: map<string, Row>)
      ensures inflight == map[] && this.rows == rows && starts == []
    {
      inflight, this.rows, starts := map[], rows, [];
    }

    /** Under the handler's mutex: join the wake in flight, or register as its leader. */
    method Join(id: string) returns (wf: InflightWake, lead: bool)
      modifies this`inflight
      ensures lead <==> id !in old(inflight)
      ensures !lead ==> inflight == old(inflight) && wf == inflight[id]
      ensures lead ==> fresh(wf) && !wf.closed && !wf.err && inflight == old(inflight)[id := wf]
    {
      if id in inflight {
        return inflight[id], false;
      }
      wf := new InflightWake();
      inflight := inflight[id := wf];
      lead := true;
    }

    /** The leader's deferred function. Closing twice panics. */
    method Leave(id: string, wf: InflightWake)
      requires !wf.closed
      modifies this`inflight, wf`closed
      ensures inflight == old(inflight) - {id} && wf.closed
    {
      inflight := inflight - {id};
      wf.closed := true;
    }

    /** The checks before the start. */
    method Check(id: string, html: bool, w: World, wf: InflightWake) returns (refused: Option<Exit>)
      requires !wf.err
      modifies wf`err
      ensures refused == RefusedBy(if id in rows then Some(rows[id]) else None, html, w)
      ensures wf.err <==> refused.Some? && SetsErr(refused.value)
    {
      if !w.storeReadable {
        wf.err := true;
        return Some(StoreFailed);
      }
      if id !in rows {
        return Some(NotFound);
      }
      var sb := rows[id];
      match sb.status {
        case Running => return Some(AlreadyRunning);
        case InError => return Some(ErrorRow);
        case Creating => return Some(StillCreating);
        case Stopped =>
      }
      if html && sb.isPrivate && w.gateDenies {
        return Some(AuthDenied);
      }
      if w.admission == Unreadable {
        wf.err := true;
        return Some(AdmitReadFailed);
      }
      if w.admission == Denied {
        return Some(AdmitDenied);
      }
      return None;
    }

    /** From docker start on. */
    method Start(id: string, w: World, wf: InflightWake) returns (e: Exit)
      requires id in rows && !wf.err
      modifies this`rows, this`starts, wf`err
      ensures e == StartedAs(w)
      ensures wf.err <==> SetsErr(e)
      ensures starts == old(starts) + [id]
      ensures rows == if Marks(e, w) then old(rows)[id := old(rows)[id].(status := Running)] else old(rows)
    {
      starts := starts + [id];
      if !w.startOk {
        wf.err := true;
        return StartFailed;
      }
      if !w.inspectOk {
        wf.err := true;
        return InspectFailed;
      }
      if w.egress {
        if !w.hasBridgeIp {
          wf.err := true;
          return NoBridgeIp;
        }
        if !w.egressAddOk {
          wf.err := true;
          return EgressFailed;
        }
      }
      if MarkApplied(w) {
        rows := rows[id := rows[id].(status := Running)];
      }
      if !Marked(w) {
        wf.err := true;
        return MarkFailed;
      }
      return Woken;
    }

    /** The body of a leader: which exit it takes, exactly; it calls docker start exactly on the
        exits of `Starts`, changes no row but its own and that one only to running, and stores an
        error on `wf` exactly on the exits of `SetsErr`. A wake that fails at the mark leaves its
        row stopped exactly if the mark is not carried out. */
    method Body(id: string, html: bool, w: World, wf: InflightWake) returns (e: Exit)
      requires !wf.err
      modifies this`rows, this`starts, wf`err
      ensures wf.err <==> SetsErr(e)
      ensures starts == if Starts(e) then old(starts) + [id] else old(starts)
      ensures Serves(old(rows), rows, id, html, w, e)
    {
      ghost var row := if id in rows then Some(rows[id]) else None;
      ExitForIs(row, html, w);
      var refused := Check(id, html, w, wf);
      if refused.Some? {
        return refused.value;
      }
      e := Start(id, w, wf);
    }

    /** A request that finds nobody in flight leaves nothing in flight, with its channel closed
        and the error its followers will read. */
    method Serve(id: string, html: bool, w: World) returns (wf: InflightWake, e: Exit)
      requires id !in inflight
      modifies this
      ensures inflight == old(inflight)
      ensures fresh(wf) && wf.closed && (wf.err <==> SetsErr(e))
      ensures starts == if Starts(e) then old(starts) + [id] else old(starts)
      ensures Serves(old(rows), rows, id, html, w, e)
    {
      var lead;
      wf, lead := Join(id);
      e := Body(id, html, w, wf);
      Leave(id, wf);
      assert old(inflight)[id := wf] - {id} == old(inflight);
    }
  }

  /** The leader's request ends while it waits for the writer: it and its followers answer a
      failure, and the sandbox is up and marked running. */
  method FailedWakeMayBeRunning() returns (h: Handler, wf: InflightWake, e: Exit)
    ensures fresh(h) && e == MarkFailed && !AnswersSuccess(e) && wf.closed && wf.err
    ensures h.rows == map["a" := Row(Running, false)] && h.starts == ["a"] && h.inflight == map[]
  {
    h := new Handler(map["a" := Row(Stopped, false)]);
    var w := World(true, false, Admitted, true, true, false, true, true, true, Rows.LeavesApplied);
    wf, e := h.Serve("a", false, w);
  }
}
