/** The idle reaper (control-plane/internal/reaper/idle.go). */
module Idle {
  import opened Common
  import opened Protocol
  import opened Rows
  import opened Reaping
  import opened Inflight

  predicate HasRunningTask(db: Db, sandbox: string) {
    exists task :: task in db.tasks && db.tasks[task].sandbox == sandbox && db.tasks[task].status == TaskRunning
  }

  /** What a tick sees besides the tables: the time and the threshold in nanoseconds, and the
      sandboxes whose running-task query fails, which counts as having none. */
  datatype Clock = Clock(now: int, threshold: int, taskCheckFails: set<string>)

  function Cutoff(c: Clock): int {
    Unix(c.now - c.threshold)
  }

  /** The rows an idle tick is for. */
  ghost predicate Due(db: Db, id: string, c: Clock, execs: seq<ExecCall>) {
    && id in db.sandboxes
    && var r := db.sandboxes[id];
    && r.status == Running && r.policy != AlwaysOn
    && r.lastActive < Cutoff(c)
    && Count(execs, id) == 0
    && !KeptAlive(r, Unix(c.now))
    && (id !in c.taskCheckFails ==> !HasRunningTask(db, id))
  }

  /** A row after a tick that reached the candidates in `done`. */
  ghost function RowAfter(db: Db, id: string, done: seq<string>, c: Clock, execs: seq<ExecCall>, f: Faults): Row
    requires id in db.sandboxes
  {
    if id in done && Due(db, id, c, execs) then AfterStop(db.sandboxes[id], id, Unix(c.now), f) else db.sandboxes[id]
  }

  ghost predicate Reaped(db: Db, db': Db, done: seq<string>, c: Clock, execs: seq<ExecCall>, f: Faults) {
    && db'.owners == db.owners && db'.tasks == db.tasks && db'.sandboxes.Keys == db.sandboxes.Keys
    && forall id | id in db.sandboxes :: db'.sandboxes[id] == RowAfter(db, id, done, c, execs, f)
  }

  /** A candidate's last activity cannot be after the cutoff, however the cutoff falls within
      its second: the in-memory recheck of the query is redundant. */
  lemma {:induction false} RecheckIsRedundant(lastActive: int, cutoff: int)
    requires lastActive < Unix(cutoff)
    ensures lastActive * NANOS < cutoff
  {
    assert Unix(cutoff) * NANOS <= cutoff;
  }

  class Reaper {
    const tables: Tables
    const inflight: InflightExec

    constructor (t: Tables, i: InflightExec)
      ensures tables == t && inflight == i
    {
      tables, inflight := t, i;
    }

    method CheckRunningTask(sandbox: string) returns (has: bool)
      ensures has == HasRunningTask(tables.Abs(), sandbox)
    {
      has := exists task :: task in tables.tasks && tables.tasks[task].sandbox == sandbox
                            && tables.tasks[task].status == TaskRunning;
    }

    /** The skip rules, on a row the query returned. */
    method Skips(id: string, c: Clock) returns (skip: bool)
      requires inflight.Valid()
      requires id in tables.sandboxes && IsCandidate(tables.sandboxes[id], Cutoff(c))
      ensures skip <==> !Due(tables.Abs(), id, c, inflight.calls)
    {
      var sb := tables.sandboxes[id];
      if sb.policy == AlwaysOn {
        return true;
      }
      var busy := inflight.Active(id);
      if busy {
        return true;
      }
      if sb.keepalive.Some? && sb.keepalive.value > Unix(c.now) {
        return true;
      }
      if id !in c.taskCheckFails {
        var has := CheckRunningTask(id);
        if has {
          return true;
        }
      }
      RecheckIsRedundant(sb.lastActive, c.now - c.threshold);
      if sb.lastActive > 0 && sb.lastActive * NANOS > c.now - c.threshold {
        return true;
      }
      return false;
    }

    /** One tick, on what the query answers: exactly the due rows it lists are stopped, as far as
        Docker and the store let it; every other row is left as it was, and all of them if the query
        fails. */
    method Tick(c: Clock, listing: Option<seq<string>>, f: Faults) returns (ok: bool)
      requires inflight.Valid() && (listing.Some? ==> ListsCandidates(listing.value, tables.Abs(), Cutoff(c)))
      modifies tables
      ensures ok <==> listing.Some?
      ensures listing.None? ==> tables.Abs() == old(tables.Abs())
      ensures listing.Some? ==> Reaped(old(tables.Abs()), tables.Abs(), listing.value, c, inflight.calls, f)
    {
      if listing.None? {
        return false;
      }
      var candidates := listing.value;
      ghost var db, execs := tables.Abs(), inflight.calls;
      assert candidates[..0] == [];
      for i := 0 to |candidates|
        invariant Reaped(db, tables.Abs(), candidates[..i], c, execs, f)
      {
        var id := candidates[i];
        ghost var mid := tables.Abs();
        NotReapedYet(db, mid, candidates, i, c, execs, f);
        var skip := Skips(id, c);
        if !skip {
          var _ := StopSandbox(tables, id, Unix(c.now), f);
        }
        OneMoreReaped(db, mid, tables.Abs(), candidates, i, c, execs, f);
      }
      assert candidates[..|candidates|] == candidates;
      ok := true;
    }
  }

  lemma {:induction false} NotReapedYet(db: Db, mid: Db, candidates: seq<string>, i: nat, c: Clock, execs: seq<ExecCall>,
                                        f: Faults)
    requires i < |candidates| && ListsCandidates(candidates, db, Cutoff(c))
    requires Reaped(db, mid, candidates[..i], c, execs, f)
    ensures candidates[i] !in candidates[..i] && candidates[i] in db.sandboxes && candidates[i] in mid.sandboxes
    ensures mid.sandboxes[candidates[i]] == db.sandboxes[candidates[i]]
    ensures IsCandidate(db.sandboxes[candidates[i]], Cutoff(c))
    ensures Due(mid, candidates[i], c, execs) <==> Due(db, candidates[i], c, execs)
  {
    assert candidates[i] in candidates;
  }

  lemma {:induction false} OneMoreReaped(db: Db, mid: Db, db': Db, candidates: seq<string>, i: nat, c: Clock,
                                         execs: seq<ExecCall>, f: Faults)
    requires i < |candidates| && candidates[i] in db.sandboxes && candidates[i] in mid.sandboxes
    requires candidates[i] !in candidates[..i]
    requires Reaped(db, mid, candidates[..i], c, execs, f)
    requires db'.owners == mid.owners && db'.tasks == mid.tasks
    requires db'.sandboxes == if Due(db, candidates[i], c, execs)
      then mid.sandboxes[candidates[i] := AfterStop(db.sandboxes[candidates[i]], candidates[i], Unix(c.now), f)]
      else mid.sandboxes
    ensures Reaped(db, db', candidates[..i + 1], c, execs, f)
  {
    var more := candidates[..i + 1];
    assert more == candidates[..i] + [candidates[i]];
    forall id | id in db.sandboxes
      ensures db'.sandboxes[id] == RowAfter(db, id, more, c, execs, f)
    {
      assert mid.sandboxes[id] == RowAfter(db, id, candidates[..i], c, execs, f);
    }
  }

  /** With Docker and the store working, a tick moves to stopped, with the tick's time, exactly
      the listed rows that are running, not always on, idle since before the cutoff second, and
      without exec call, unexpired keepalive or running task; nothing else changes. A due row it
      leaves running was active no earlier than any it stopped, and there is one only if reading the
      candidates broke off. */
  lemma {:induction false} TickStopsExactly(db: Db, db': Db, candidates: seq<string>, c: Clock, execs: seq<ExecCall>,
                                            f: Faults, id: string)
    requires ListsCandidates(candidates, db, Cutoff(c)) && Reaped(db, db', candidates, c, execs, f)
    requires f.stop == {} && f.mark == {} && c.taskCheckFails == {} && id in db.sandboxes
    ensures var r, r' := db.sandboxes[id], db'.sandboxes[id];
      && (r.status == Running && r'.status == Stopped <==> Due(db, id, c, execs) && id in candidates)
      && (Due(db, id, c, execs) <==>
            && r.status == Running && r.policy != AlwaysOn && r.lastActive < (c.now - c.threshold) / 1_000_000_000
            && Count(execs, id) == 0 && (r.keepalive.None? || r.keepalive.value <= c.now / 1_000_000_000)
            && forall task | task in db.tasks && db.tasks[task].sandbox == id :: db.tasks[task].status != TaskRunning)
      && (if Due(db, id, c, execs) && id in candidates
          then r'.status == Stopped && r'.stoppedAt == Some(Unix(c.now))
          else r' == r)
    ensures Due(db, id, c, execs) && id !in candidates ==>
      && !AllCandidates(candidates, db, Cutoff(c))
      && forall other | other in candidates :: db.sandboxes[other].lastActive <= db.sandboxes[id].lastActive
  {
    assert db'.sandboxes[id] == RowAfter(db, id, candidates, c, execs, f);
  }

  /** A second tick at the same moment, with nothing in between, finds nothing left to stop if the
      first had all the candidates, whatever its own listing. */
  lemma {:induction false} TickIsIdempotent(db: Db, once: Db, twice: Db, listed: seq<string>, relisted: seq<string>,
                                            c: Clock, execs: seq<ExecCall>, f: Faults)
    requires AllCandidates(listed, db, Cutoff(c)) && Reaped(db, once, listed, c, execs, f)
    requires Reaped(once, twice, relisted, c, execs, f)
    requires f.stop == {} && f.mark == {}
    ensures twice == once
  {
    forall id | id in once.sandboxes
      ensures !Due(once, id, c, execs)
    {
      assert once.sandboxes[id] == RowAfter(db, id, listed, c, execs, f);
      if Due(db, id, c, execs) {
        assert id in listed;
      }
    }
    assert twice.sandboxes == once.sandboxes by {
      forall id | id in once.sandboxes
        ensures twice.sandboxes[id] == once.sandboxes[id]
      {
        assert twice.sandboxes[id] == RowAfter(once, id, relisted, c, execs, f);
      }
    }
  }
}
