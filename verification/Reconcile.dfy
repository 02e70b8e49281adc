/** The boot-time reconciler (control-plane/internal/reconcile/reconcile.go), without an egress
    manager. */
module Reconcile {
  import opened Common
  import opened Rows

  const NANOS := 1_000_000_000
  const STALE_AFTER := 300 * NANOS
  const STALE_MSG := "interrupted while creating; reconciler timeout"

  datatype Container = Container(id: string, running: bool)

  /** What one pass sees besides the tables: the time in nanoseconds, the containers, the ids
      whose inspection fails otherwise than by absence, and the cgroup paths that re-applying
      memory.high yields where it is on and works. `lost` are the writes that are not carried out,
      and those to running that are, but only after their caller's context has ended. */
  datatype World = World(now: int, containers: map<string, Container>, unreadable: set<string>,
                         reapplied: map<string, string>, lost: Lost)

  datatype Lost = Lost(error: set<string>, stop: set<string>, clear: set<string>, run: set<string>, late: set<string>)

  datatype Verdict = ToError | ToStopped | ToRunning | Skipped

  predicate Stale(r: Row, now: int) {
    r.status == Creating && now - r.createdAt * NANOS > STALE_AFTER
  }

  predicate Up(id: string, w: World) {
    id in w.containers && w.containers[id].running
  }

  function Judge(r: Row, id: string, w: World): Verdict {
    if Stale(r, w.now) then ToError
    else if id in w.unreadable then Skipped
    else if !Up(id, w) then ToStopped
    else if id in w.lost.run || id in w.lost.late then Skipped
    else ToRunning
  }

  function Short(id: string): string {
    if |id| > 12 then id[..12] else id
  }

  function CgroupFor(r: Row, id: string, w: World): string {
    if id in w.reapplied then w.reapplied[id] else if r.cgroup.Some? then r.cgroup.value else ""
  }

  function Seconds(w: World): int {
    w.now / NANOS
  }

  function RowAfter(r: Row, id: string, w: World): Row {
    if Stale(r, w.now) then
      if id in w.lost.error then r else Changed(r, MarkError(STALE_MSG), Seconds(w))
    else if id in w.unreadable then r
    else if !Up(id, w) then
      var marked := if id in w.lost.stop then r else Changed(r, MarkStopped, Seconds(w));
      if r.ip.Some? && id !in w.lost.clear then Changed(marked, ClearContainerIP, Seconds(w)) else marked
    else if id in w.lost.run then r
    else Changed(r, MarkRunning(Short(w.containers[id].id), CgroupFor(r, id, w)), Seconds(w))
  }

  predicate Visits(r: Row) {
    r.status == Running || r.status == Creating || r.status == Stopped
  }

  /** What the query returns: such rows, each once. */
  ghost predicate Lists(ids: seq<string>, db: Db) {
    && (forall i, j :: 0 <= i < j < |ids| ==> ids[i] != ids[j])
    && (forall id | id in ids :: id in db.sandboxes && Visits(db.sandboxes[id]))
  }

  /** All of them, unless reading broke off, which the query does not report. */
  ghost predicate Whole(ids: seq<string>, db: Db) {
    forall id | id in db.sandboxes && Visits(db.sandboxes[id]) :: id in ids
  }

  /** Exactly the visited rows may have changed. */
  ghost predicate Passed(db: Db, db': Db, done: seq<string>, w: World) {
    && db'.owners == db.owners && db'.tasks == db.tasks && db'.sandboxes.Keys == db.sandboxes.Keys
    && forall id | id in db.sandboxes ::
         db'.sandboxes[id] == if id in done then RowAfter(db.sandboxes[id], id, w) else db.sandboxes[id]
  }

  /** How many of the listed rows get a verdict. */
  function Tally(db: Db, ids: seq<string>, w: World, v: Verdict): nat {
    if ids == [] then 0
    else
      var last := ids[|ids| - 1];
      Tally(db, ids[..|ids| - 1], w, v) +
      if last in db.sandboxes && Judge(db.sandboxes[last], last, w) == v then 1 else 0
  }

  datatype Result = Result(rows: nat, reapplied: nat, stopped: nat, errored: nat)

  /** The counters of a pass that listed these rows. */
  ghost predicate Counted(db: Db, ids: seq<string>, w: World, res: Result) {
    && res.rows == |ids|
    && res.reapplied == Tally(db, ids, w, ToRunning)
    && res.stopped == Tally(db, ids, w, ToStopped)
    && res.errored == Tally(db, ids, w, ToError)
  }

  class Reconciler {
    const tables: Tables

    constructor (t: Tables)
      ensures tables == t
    {
      tables := t;
    }

    function FailIf(lost: bool): nat {
      if lost then 0 else 1
    }

    method ReconcileRow(id: string, w: World) returns (v: Verdict)
      requires id in tables.sandboxes
      modifies tables
      ensures v == Judge(old(tables.sandboxes)[id], id, w)
      ensures tables.owners == old(tables.owners) && tables.tasks == old(tables.tasks)
      ensures tables.sandboxes == old(tables.sandboxes)[id := RowAfter(old(tables.sandboxes)[id], id, w)]
    {
      var sb := tables.sandboxes[id];
      var now := Seconds(w);
      if sb.status == Creating && w.now - sb.createdAt * NANOS > STALE_AFTER {
        var _ := tables.Update(id, MarkError(STALE_MSG), now, FailIf(id in w.lost.error));
        return ToError;
      }
      if id in w.unreadable {
        return Skipped;
      }
      if id !in w.containers || !w.containers[id].running {
        var _ := tables.Update(id, MarkStopped, now, FailIf(id in w.lost.stop));
        if sb.ip.Some? {
          var _ := tables.Update(id, ClearContainerIP, now, FailIf(id in w.lost.clear));
        }
        return ToStopped;
      }
      var path := if sb.cgroup.Some? then sb.cgroup.value else "";
      if id in w.reapplied {
        path := w.reapplied[id];
      }
      var reply := tables.Submit(Update(id, MarkRunning(Short(w.containers[id].id), path), now),
                                 FailIf(id in w.lost.run), if id in w.lost.late then LeavesApplied else Stays);
      return if reply == Replied(Ok) then ToRunning else Skipped;
    }

    /** The loop over the rows; the counters count the verdicts. */
    method ReconcileRows(ids: seq<string>, w: World) returns (res: Result)
      requires Lists(ids, tables.Abs())
      modifies tables
      ensures Passed(old(tables.Abs()), tables.Abs(), ids, w) && Counted(old(tables.Abs()), ids, w, res)
    {
      ghost var db := tables.Abs();
      res := Result(|ids|, 0, 0, 0);
      assert ids[..0] == [];
      for i := 0 to |ids|
        invariant Passed(db, tables.Abs(), ids[..i], w)
        invariant res == Result(|ids|, Tally(db, ids[..i], w, ToRunning), Tally(db, ids[..i], w, ToStopped),
                                Tally(db, ids[..i], w, ToError))
      {
        ghost var mid := tables.Abs();
        NotPassedYet(db, mid, ids, i, w);
        var v := ReconcileRow(ids[i], w);
        OnePassed(db, mid, tables.Abs(), ids, i, w);
        assert ids[..i + 1][..i] == ids[..i];
        match v {
          case ToRunning => res := res.(reapplied := res.reapplied + 1);
          case ToStopped => res := res.(stopped := res.stopped + 1);
          case ToError => res := res.(errored := res.errored + 1);
          case Skipped =>
        }
      }
      assert ids[..|ids|] == ids;
    }

    /** One pass, on what the query answers. Nothing happens if it fails. */
    method Once(listing: Option<seq<string>>, w: World) returns (ok: bool, res: Result)
      requires listing.Some? ==> Lists(listing.value, tables.Abs())
      modifies tables
      ensures ok <==> listing.Some?
      ensures listing.None? ==> tables.Abs() == old(tables.Abs()) && res == Result(0, 0, 0, 0)
      ensures listing.Some? ==>
        && Passed(old(tables.Abs()), tables.Abs(), listing.value, w)
        && Counted(old(tables.Abs()), listing.value, w, res)
    {
      if listing.None? {
        return false, Result(0, 0, 0, 0);
      }
      ok := true;
      res := ReconcileRows(listing.value, w);
    }
  }

  lemma {:induction false} NotPassedYet(db: Db, mid: Db, ids: seq<string>, i: nat, w: World)
    requires i < |ids| && Lists(ids, db) && Passed(db, mid, ids[..i], w)
    ensures ids[i] !in ids[..i] && ids[i] in db.sandboxes && ids[i] in mid.sandboxes
    ensures mid.sandboxes[ids[i]] == db.sandboxes[ids[i]]
  {
    assert ids[i] in ids;
  }

  lemma {:induction false} OnePassed(db: Db, mid: Db, db': Db, ids: seq<string>, i: nat, w: World)
    requires i < |ids| && ids[i] in db.sandboxes && ids[i] !in ids[..i] && Passed(db, mid, ids[..i], w)
    requires db'.owners == mid.owners && db'.tasks == mid.tasks
    requires db'.sandboxes == mid.sandboxes[ids[i] := RowAfter(db.sandboxes[ids[i]], ids[i], w)]
    ensures Passed(db, db', ids[..i + 1], w)
  {
    assert ids[..i + 1] == ids[..i] + [ids[i]];
  }

  /** What a pass stores in a row it visits, where the calls on it work: a create more than five
      minutes old is in error; a container that is there and runs gives its short id and its cgroup;
      any other row is stopped and has no address. */
  lemma {:induction false} VisitStores(r: Row, id: string, w: World)
    requires w.lost == Lost({}, {}, {}, {}, {}) && id !in w.unreadable
    ensures var r' := RowAfter(r, id, w);
      var stale := r.status == Creating && w.now - r.createdAt * 1_000_000_000 > 300 * 1_000_000_000;
      var up := id in w.containers && w.containers[id].running;
      && (stale ==> r'.status == Errored && r'.error == Some("interrupted while creating; reconciler timeout"))
      && (!stale && !up ==> r'.status == Stopped && r'.ip == None && r'.containerId == r.containerId)
      && (!stale && up ==>
            && r'.status == Running && r'.error == None && r'.ip == r.ip
            && r'.containerId.Some? && r'.containerId.value <= w.containers[id].id
            && |r'.containerId.value| == (if |w.containers[id].id| > 12 then 12 else |w.containers[id].id|)
            && (id in w.reapplied ==> r'.cgroup == Some(w.reapplied[id]))
            && (id !in w.reapplied ==> r'.cgroup == if r.cgroup.Some? then r.cgroup else Some("")))
      && r'.lastActive == r.lastActive && r'.keepalive == r.keepalive && r'.stoppedAt == r.stoppedAt
      && r'.user == r.user && r'.ports == r.ports && r'.visibility == r.visibility && r'.policy == r.policy
  {
  }

  // --- what a pass achieves --------------------------------------------------------------------

  /** Every listed row is counted once or skipped. */
  lemma {:induction false} CountsAddUp(db: Db, ids: seq<string>, w: World)
    requires forall i :: 0 <= i < |ids| ==> ids[i] in db.sandboxes
    ensures |ids| == Tally(db, ids, w, ToRunning) + Tally(db, ids, w, ToStopped) + Tally(db, ids, w, ToError)
                     + Tally(db, ids, w, Skipped)
    decreases |ids|
  {
    if ids != [] {
      var front := ids[..|ids| - 1];
      assert forall i :: 0 <= i < |front| ==> front[i] == ids[i];
      CountsAddUp(db, front, w);
    }
  }

  lemma {:induction false} NoneSkipped(db: Db, ids: seq<string>, w: World)
    requires w.unreadable == {} && w.lost.run == {} && w.lost.late == {}
    ensures Tally(db, ids, w, Skipped) == 0
    decreases |ids|
  {
    if ids != [] {
      NoneSkipped(db, ids[..|ids| - 1], w);
    }
  }

  /** With inspections and writes succeeding, a pass leaves a creating row exactly if it was not
      listed; every listed row was a stale create and now says error, or agrees with its container;
      no stopped row of theirs keeps an address; every other row is as it was, and if the listing was
      whole those are the rows in error; and the counters add up to the number of rows. */
  lemma {:induction false} Converges(db: Db, db': Db, ids: seq<string>, w: World, id: string)
    requires Lists(ids, db) && Passed(db, db', ids, w)
    requires w.unreadable == {} && w.lost == Lost({}, {}, {}, {}, {}) && id in db.sandboxes
    ensures db'.sandboxes[id].status == Creating <==> db.sandboxes[id].status == Creating && id !in ids
    ensures id !in ids ==> db'.sandboxes[id] == db.sandboxes[id]
    ensures Whole(ids, db) ==> (id !in ids <==> db.sandboxes[id].status == Errored)
    ensures id in ids ==>
      if db.sandboxes[id].status == Creating && w.now - db.sandboxes[id].createdAt * NANOS > 300 * NANOS
      then db'.sandboxes[id].status == Errored
      else db'.sandboxes[id].status == (if Up(id, w) then Running else Stopped)
    ensures id in ids && db'.sandboxes[id].status == Stopped ==> db'.sandboxes[id].ip == None
    ensures |ids| == Tally(db, ids, w, ToRunning) + Tally(db, ids, w, ToStopped) + Tally(db, ids, w, ToError)
  {
    forall i | 0 <= i < |ids|
      ensures ids[i] in db.sandboxes
    {
      assert ids[i] in ids;
    }
    CountsAddUp(db, ids, w);
    NoneSkipped(db, ids, w);
  }

  /** A second pass over unchanged containers, at any later time, changes nothing but `updatedAt`
      of a row the first one visited; and, if the first one's listing was whole, of any row. */
  lemma {:induction false} SecondPassChangesNothing(db: Db, once: Db, twice: Db, ids: seq<string>, again: seq<string>,
                                                    w: World, w': World, id: string)
    requires Lists(ids, db) && Passed(db, once, ids, w)
    requires Lists(again, once) && Passed(once, twice, again, w')
    requires w.unreadable == {} && w.lost == Lost({}, {}, {}, {}, {})
    requires w'.containers == w.containers && w'.reapplied == w.reapplied
    requires id in db.sandboxes
    ensures Whole(ids, db) || id in ids || id !in again ==>
      twice.sandboxes[id] == once.sandboxes[id].(updatedAt := twice.sandboxes[id].updatedAt)
    ensures twice.owners == once.owners && twice.tasks == once.tasks
  {
    Converges(db, once, ids, w, id);
    if id in again && id in ids {
      SecondVisit(db.sandboxes[id], id, w, w');
    }
  }

  lemma {:induction false} SecondVisit(r: Row, id: string, w: World, w': World)
    requires w.unreadable == {} && w.lost == Lost({}, {}, {}, {}, {})
    requires w'.containers == w.containers && w'.reapplied == w.reapplied
    ensures var once := RowAfter(r, id, w);
      Visits(once) ==>
        RowAfter(once, id, w') == once.(updatedAt := RowAfter(once, id, w').updatedAt)
  {
  }
}
