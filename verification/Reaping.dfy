/** What the idle and the pressure reaper share: the candidate query, the in-memory skip rules
    and the stop (control-plane/internal/store/store.go, control-plane/internal/reaper). */
module Reaping {
  import opened Common
  import opened Rows

  const NANOS := 1_000_000_000

  /** The whole second a time given in nanoseconds lies in. */
  function Unix(nanos: int): int {
    nanos / NANOS
  }

  /** The rows the query selects. */
  predicate IsCandidate(r: Row, cutoff: int) {
    r.status == Running && r.lastActive < cutoff && r.policy != AlwaysOn
  }

  /** A result of the query, which ends without an error where reading breaks off: selected rows,
      each once, oldest activity first, and no older one left out. */
  ghost predicate ListsCandidates(ids: seq<string>, db: Db, cutoff: int) {
    && (forall i, j :: 0 <= i < j < |ids| ==> ids[i] != ids[j])
    && (forall id | id in ids :: id in db.sandboxes && IsCandidate(db.sandboxes[id], cutoff))
    && (forall i, j :: 0 <= i < j < |ids| ==> db.sandboxes[ids[i]].lastActive <= db.sandboxes[ids[j]].lastActive)
    && (forall id, other | id in ids && other in db.sandboxes && IsCandidate(db.sandboxes[other], cutoff) ::
          other in ids || db.sandboxes[id].lastActive <= db.sandboxes[other].lastActive)
  }

  /** All of them. */
  ghost predicate AllCandidates(ids: seq<string>, db: Db, cutoff: int) {
    forall id | id in db.sandboxes && IsCandidate(db.sandboxes[id], cutoff) :: id in ids
  }

  predicate KeptAlive(r: Row, now: int) {
    r.keepalive.Some? && r.keepalive.value > now
  }

  /** How stopping goes: ids whose container does not stop, and whose row writes are not carried
      out. The callers do nothing with a write's reply but count and log it. */
  datatype Faults = Faults(egress: bool, stop: set<string>, clear: set<string>, mark: set<string>)

  /** A row after its sandbox was told to stop. */
  function AfterStop(r: Row, id: string, now: int, f: Faults): Row {
    if id in f.stop then r
    else
      var cleared := if f.egress && r.ip.Some? && id !in f.clear then Changed(r, ClearContainerIP, now) else r;
      if id in f.mark then cleared else Changed(cleared, MarkStoppedAt(now), now)
  }

  /** Unless its container does not stop, the row is marked stopped at that time and, where there is
      an egress policy, has no address left, each as far as the write is carried out. */
  lemma {:induction false} AfterStopIs(r: Row, id: string, now: int, f: Faults)
    ensures var r' := AfterStop(r, id, now, f);
      && (id in f.stop ==> r' == r)
      && (id !in f.stop && id !in f.mark ==> r'.status == Stopped && r'.stoppedAt == Some(now))
      && (id !in f.stop && id in f.mark ==> r'.status == r.status && r'.stoppedAt == r.stoppedAt)
      && (id !in f.stop && f.egress && id !in f.clear ==> r'.ip == None)
      && (!f.egress || id in f.clear ==> r'.ip == r.ip)
      && r' == r.(status := r'.status, stoppedAt := r'.stoppedAt, ip := r'.ip, updatedAt := r'.updatedAt)
  {
  }

  function FailAt(id: string, fails: set<string>): nat {
    if id in fails then 0 else 1
  }

  /** Stop the container, drop its address, mark the row. */
  method StopSandbox(tables: Tables, id: string, now: int, f: Faults) returns (marked: bool)
    requires id in tables.sandboxes
    modifies tables
    ensures tables.owners == old(tables.owners) && tables.tasks == old(tables.tasks)
    ensures tables.sandboxes == old(tables.sandboxes)[id := AfterStop(old(tables.sandboxes)[id], id, now, f)]
    ensures marked <==> id !in f.stop && id !in f.mark
  {
    if id in f.stop {
      return false;
    }
    var ip := tables.sandboxes[id].ip;
    if f.egress && ip.Some? {
      var _ := tables.Update(id, ClearContainerIP, now, FailAt(id, f.clear));
    }
    var o := tables.Update(id, MarkStoppedAt(now), now, FailAt(id, f.mark));
    return o == Ok;
  }
}
