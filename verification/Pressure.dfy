/** The memory-pressure reaper and wake admission (control-plane/internal/reaper/pressure.go,
    control-plane/internal/reaper/meminfo.go, control-plane/internal/wake/admit.go). */
module Pressure {
  import opened Common
  import opened Protocol
  import opened Rows
  import opened Reaping
  import opened Inflight
  import Idle

  /** /proc/meminfo in KB. */
  datatype MemInfo = MemInfo(total: nat, available: nat)

  function AvailablePct(m: MemInfo): real {
    if m.total == 0 then 100.0 else m.available as real * 100.0 / m.total as real
  }

  /** The share in percent; all of it where there is no total. */
  lemma {:induction false} AvailableIs(m: MemInfo)
    ensures m.total > 0 ==> AvailablePct(m) * m.total as real == 100.0 * m.available as real
    ensures m.total == 0 ==> AvailablePct(m) == 100.0
  {
  }

  datatype Config = Config(headroom: real, refuse: real, emergency: real)

  /** Unset or negative thresholds take their defaults. */
  function ApplyDefaults(c: Config): Config {
    Config(if c.headroom <= 0.0 then 15.0 else c.headroom,
           if c.refuse <= 0.0 then 10.0 else c.refuse,
           if c.emergency <= 0.0 then 5.0 else c.emergency)
  }

  // --- the refusal flag -----------------------------------------------------------------------

  /** What a reading says about refusing wakes: nothing if it failed or lies inside
      [refuse, refuse + 2). */
  function Verdict(reading: Option<MemInfo>, refuse: real): Option<bool> {
    if reading.None? then None
    else if AvailablePct(reading.value) < refuse then Some(true)
    else if AvailablePct(reading.value) >= refuse + 2.0 then Some(false)
    else None
  }

  function Flag(before: bool, verdict: Option<bool>): bool {
    if verdict.Some? then verdict.value else before
  }

  /** The flag after a history of verdicts. */
  function FlagAfter(before: bool, verdicts: seq<Option<bool>>): bool {
    if verdicts == [] then before
    else Flag(FlagAfter(before, verdicts[..|verdicts| - 1]), verdicts[|verdicts| - 1])
  }

  ghost predicate Latest(verdicts: seq<Option<bool>>, i: int) {
    0 <= i < |verdicts| && verdicts[i].Some? && forall j :: i < j < |verdicts| ==> verdicts[j].None?
  }

  lemma {:induction false} LatestDecides(before: bool, verdicts: seq<Option<bool>>)
    ensures FlagAfter(before, verdicts) <==>
      || (exists i :: Latest(verdicts, i) && verdicts[i] == Some(true))
      || (before && forall j :: 0 <= j < |verdicts| ==> verdicts[j].None?)
    decreases |verdicts|
  {
    if verdicts != [] {
      var front, n := verdicts[..|verdicts| - 1], |verdicts| - 1;
      LatestDecides(before, front);
      assert forall j :: 0 <= j < n ==> front[j] == verdicts[j];
      if verdicts[n].Some? {
        assert Latest(verdicts, n);
      } else {
        if i :| Latest(front, i) && front[i] == Some(true) {
          assert Latest(verdicts, i);
        }
        if i :| Latest(verdicts, i) && verdicts[i] == Some(true) {
          assert Latest(front, i);
        }
      }
    }
  }

  function Verdicts(readings: seq<Option<MemInfo>>, refuse: real): seq<Option<bool>> {
    seq(|readings|, i requires 0 <= i < |readings| => Verdict(readings[i], refuse))
  }

  /** A reading outside the band. */
  predicate Decisive(reading: Option<MemInfo>, refuse: real) {
    reading.Some? && !(refuse <= AvailablePct(reading.value) < refuse + 2.0)
  }

  ghost predicate LastDecisive(readings: seq<Option<MemInfo>>, i: int, refuse: real) {
    && 0 <= i < |readings| && Decisive(readings[i], refuse)
    && forall j :: i < j < |readings| ==> !Decisive(readings[j], refuse)
  }

  lemma {:induction false} VerdictIff(reading: Option<MemInfo>, refuse: real)
    ensures Verdict(reading, refuse).Some? <==> Decisive(reading, refuse)
    ensures Verdict(reading, refuse) == Some(true) <==> reading.Some? && AvailablePct(reading.value) < refuse
  {
  }

  /** After any history of readings, failed ones included, wakes are refused exactly if the
      latest reading outside the band was below it, or there was none and they were refused
      before. */
  lemma {:induction false} RefusedIff(before: bool, readings: seq<Option<MemInfo>>, refuse: real)
    ensures FlagAfter(before, Verdicts(readings, refuse)) <==>
      || (exists i :: LastDecisive(readings, i, refuse) && AvailablePct(readings[i].value) < refuse)
      || (before && forall j :: 0 <= j < |readings| ==> !Decisive(readings[j], refuse))
  {
    var vs := Verdicts(readings, refuse);
    LatestDecides(before, vs);
    forall j | 0 <= j < |readings|
      ensures vs[j].Some? <==> Decisive(readings[j], refuse)
      ensures vs[j] == Some(true) <==> readings[j].Some? && AvailablePct(readings[j].value) < refuse
    {
      VerdictIff(readings[j], refuse);
    }
    assert forall i :: Latest(vs, i) <==> LastDecisive(readings, i, refuse);
  }

  // --- one tick ---------------------------------------------------------------------------------

  /** What one tick sees besides the tables. `oldest` and `running` are the answers of the two
      queries; `rss` is memory.current where it can be read. */
  datatype Env = Env(now: int, reading: Option<MemInfo>, oldest: Option<seq<string>>, running: Option<seq<string>>,
                     rss: map<string, nat>, faults: Faults)

  /** Running rows, each once; not all of them if reading broke off. */
  ghost predicate ListsRunning(ids: seq<string>, db: Db) {
    && (forall i, j :: 0 <= i < j < |ids| ==> ids[i] != ids[j])
    && (forall id | id in ids :: id in db.sandboxes && db.sandboxes[id].status == Running)
  }

  ghost predicate EnvOk(db: Db, e: Env) {
    && (e.oldest.Some? ==> ListsCandidates(e.oldest.value, db, Unix(e.now)))
    && (e.running.Some? ==> ListsRunning(e.running.value, db))
  }

  /** The rows the advisory bands may stop. */
  ghost predicate Eligible(db: Db, id: string, now: int, execs: seq<ExecCall>) {
    && id in db.sandboxes && IsCandidate(db.sandboxes[id], now)
    && Count(execs, id) == 0 && !KeptAlive(db.sandboxes[id], now)
  }

  /** The rows the emergency band may stop: any running sandbox whose memory can be read. */
  predicate Killable(db: Db, id: string, rss: map<string, nat>) {
    && id in db.sandboxes && db.sandboxes[id].status == Running && db.sandboxes[id].cgroup.Some?
    && id in rss && rss[id] > 0
  }

  /** At most the target's row has changed, and only as stopping it does. */
  ghost predicate OnlyStops(db: Db, db': Db, target: Option<string>, now: int, f: Faults) {
    && db'.owners == db.owners && db'.tasks == db.tasks
    && (target.Some? ==> target.value in db.sandboxes)
    && db'.sandboxes == if target.None? then db.sandboxes
         else db.sandboxes[target.value := AfterStop(db.sandboxes[target.value], target.value, now, f)]
  }

  ghost predicate OldestEligible(db: Db, id: string, now: int, execs: seq<ExecCall>) {
    && Eligible(db, id, now, execs)
    && forall other :: Eligible(db, other, now, execs) ==>
         db.sandboxes[id].lastActive <= db.sandboxes[other].lastActive
  }

  /** The heaviest of those that are listed. */
  ghost predicate Heaviest(db: Db, id: string, ids: seq<string>, rss: map<string, nat>) {
    && id in ids && Killable(db, id, rss)
    && forall other | other in ids :: Killable(db, other, rss) ==> rss[other] <= rss[id]
  }

  /** Whom a tick goes for, by the band the reading falls in; `None` if nobody. The oldest eligible
      row is the oldest of all even where the listing is not whole. */
  ghost predicate RightTarget(db: Db, target: Option<string>, cfg: Config, e: Env, execs: seq<ExecCall>) {
    if e.reading.None? || AvailablePct(e.reading.value) >= cfg.headroom then target == None
    else if AvailablePct(e.reading.value) >= cfg.refuse || AvailablePct(e.reading.value) >= cfg.emergency then
      if e.oldest.None? then target == None
      else if target.Some? then OldestEligible(db, target.value, Unix(e.now), execs)
      else forall id | id in e.oldest.value :: !Eligible(db, id, Unix(e.now), execs)
    else
      if e.running.None? then target == None
      else if target.Some? then Heaviest(db, target.value, e.running.value, e.rss)
      else forall id | id in e.running.value :: !Killable(db, id, e.rss)
  }

  class Reaper {
    const tables: Tables
    const inflight: InflightExec
    const cfg: Config
    var refused: bool

    constructor (t: Tables, i: InflightExec, c: Config)
      ensures tables == t && inflight == i && cfg == ApplyDefaults(c) && !refused
      ensures c.headroom > 0.0 ==> cfg.headroom == c.headroom
      ensures c.headroom <= 0.0 ==> cfg.headroom == 15.0
      ensures c.refuse > 0.0 ==> cfg.refuse == c.refuse
      ensures c.refuse <= 0.0 ==> cfg.refuse == 10.0
      ensures c.emergency > 0.0 ==> cfg.emergency == c.emergency
      ensures c.emergency <= 0.0 ==> cfg.emergency == 5.0
    {
      tables, inflight, cfg, refused := t, i, ApplyDefaults(c), false;
    }

    /** The first candidate the skip rules pass is the oldest eligible row; only it is stopped. */
    method StopOldestIdle(e: Env) returns (target: Option<string>)
      requires inflight.Valid() && EnvOk(tables.Abs(), e)
      modifies tables
      ensures OnlyStops(old(tables.Abs()), tables.Abs(), target, Unix(e.now), e.faults)
      ensures e.oldest.None? ==> target == None
      ensures target.Some? ==> OldestEligible(old(tables.Abs()), target.value, Unix(e.now), inflight.calls)
      ensures e.oldest.Some? && target.None? ==>
        forall id | id in e.oldest.value :: !Eligible(old(tables.Abs()), id, Unix(e.now), inflight.calls)
    {
      if e.oldest.None? {
        return None;
      }
      ghost var db := tables.Abs();
      var ids := e.oldest.value;
      for i := 0 to |ids|
        invariant tables.Abs() == db
        invariant forall j :: 0 <= j < i ==> !Eligible(db, ids[j], Unix(e.now), inflight.calls)
      {
        var id := ids[i];
        assert id in ids;
        var sb := tables.sandboxes[id];
        var busy := inflight.Active(id);
        if !busy && !(sb.keepalive.Some? && sb.keepalive.value > Unix(e.now)) {
          OldestOfList(db, ids, i, Unix(e.now), inflight.calls);
          var _ := StopSandbox(tables, id, Unix(e.now), e.faults);
          return Some(id);
        }
      }
      return None;
    }

    method StopHeaviestRSS(e: Env) returns (target: Option<string>)
      requires EnvOk(tables.Abs(), e)
      modifies tables
      ensures OnlyStops(old(tables.Abs()), tables.Abs(), target, Unix(e.now), e.faults)
      ensures e.running.None? ==> target == None
      ensures target.Some? ==> e.running.Some? && Heaviest(old(tables.Abs()), target.value, e.running.value, e.rss)
      ensures e.running.Some? && target.None? ==>
        forall id | id in e.running.value :: !Killable(old(tables.Abs()), id, e.rss)
    {
      if e.running.None? {
        return None;
      }
      ghost var db := tables.Abs();
      var ids := e.running.value;
      target := None;
      var most: nat := 0;
      for i := 0 to |ids|
        invariant tables.Abs() == db
        invariant target.None? ==> forall j :: 0 <= j < i ==> !Killable(db, ids[j], e.rss)
        invariant target.Some? ==>
          target.value in ids && Killable(db, target.value, e.rss) && most == e.rss[target.value]
        invariant target.Some? ==> forall j :: 0 <= j < i && Killable(db, ids[j], e.rss) ==> e.rss[ids[j]] <= most
      {
        var id := ids[i];
        assert id in ids;
        if tables.sandboxes[id].cgroup.None? || id !in e.rss || e.rss[id] == 0 {
          continue;
        }
        if target.None? || e.rss[id] > most {
          target, most := Some(id), e.rss[id];
        }
      }
      if target.None? {
        return;
      }
      var _ := StopSandbox(tables, target.value, Unix(e.now), e.faults);
    }

    /** One tick updates the flag and goes for at most one sandbox, the one its band says; no
        other row changes. */
    method Tick(e: Env) returns (target: Option<string>)
      requires inflight.Valid() && EnvOk(tables.Abs(), e)
      modifies this, tables
      ensures refused == Flag(old(refused), Verdict(e.reading, cfg.refuse))
      ensures RightTarget(old(tables.Abs()), target, cfg, e, inflight.calls)
      ensures OnlyStops(old(tables.Abs()), tables.Abs(), target, Unix(e.now), e.faults)
    {
      if e.reading.None? {
        return None;
      }
      var avail := AvailablePct(e.reading.value);
      if avail < cfg.refuse {
        refused := true;
      } else if avail >= cfg.refuse + 2.0 {
        refused := false;
      }
      if avail >= cfg.headroom {
        return None;
      } else if avail >= cfg.refuse {
        target := StopOldestIdle(e);
      } else if avail >= cfg.emergency {
        target := StopOldestIdle(e);
      } else {
        target := StopHeaviestRSS(e);
      }
    }
  }

  lemma {:induction false} OldestOfList(db: Db, ids: seq<string>, i: nat, now: int, execs: seq<ExecCall>)
    requires ListsCandidates(ids, db, now) && i < |ids| && Eligible(db, ids[i], now, execs)
    requires forall j :: 0 <= j < i ==> !Eligible(db, ids[j], now, execs)
    ensures OldestEligible(db, ids[i], now, execs)
  {
    forall other | Eligible(db, other, now, execs)
      ensures db.sandboxes[ids[i]].lastActive <= db.sandboxes[other].lastActive
    {
      if other in ids {
        var j :| 0 <= j < |ids| && ids[j] == other;
      } else {
        assert ids[i] in ids;
      }
    }
  }

  /** The skip rules the two reapers share, and those they do not: an idle tick stops what the
      advisory bands may stop, less what was active since its cutoff or runs a coding task. */
  lemma {:induction false} IdleRulesAreStricterIff(db: Db, id: string, c: Idle.Clock, execs: seq<ExecCall>)
    requires c.threshold >= 0 && id !in c.taskCheckFails
    ensures Idle.Due(db, id, c, execs) <==>
      && Eligible(db, id, Unix(c.now), execs)
      && db.sandboxes[id].lastActive < Idle.Cutoff(c) && !Idle.HasRunningTask(db, id)
  {
    assert Unix(c.now - c.threshold) <= Unix(c.now);
  }

  /** The rows the advisory bands may stop, spelled out. */
  lemma {:induction false} EligibleIff(db: Db, id: string, now: int, execs: seq<ExecCall>)
    ensures Eligible(db, id, now, execs) <==>
      && id in db.sandboxes
      && var r := db.sandboxes[id];
         && r.status == Running && r.policy != AlwaysOn && r.lastActive < now
         && Count(execs, id) == 0 && (r.keepalive.None? || r.keepalive.value <= now)
  {
  }

  /** With whole listings a tick goes for somebody exactly if there is somebody its band may stop,
      and in the emergency band for the heaviest of all. */
  lemma {:induction false} WholeListingsDecide(db: Db, target: Option<string>, cfg: Config, e: Env,
                                               execs: seq<ExecCall>)
    requires EnvOk(db, e) && RightTarget(db, target, cfg, e, execs)
    requires e.oldest.Some? && AllCandidates(e.oldest.value, db, Unix(e.now))
    requires e.running.Some?
    requires forall id | id in db.sandboxes && db.sandboxes[id].status == Running :: id in e.running.value
    requires e.reading.Some? && AvailablePct(e.reading.value) < cfg.headroom
    ensures var pct := AvailablePct(e.reading.value);
      var advisory := pct >= cfg.refuse || pct >= cfg.emergency;
      && (advisory ==> (target.None? <==> forall id :: !Eligible(db, id, Unix(e.now), execs)))
      && (!advisory ==> (target.None? <==> forall id :: !Killable(db, id, e.rss)))
      && (!advisory && target.Some? ==> forall id :: Killable(db, id, e.rss) ==> e.rss[id] <= e.rss[target.value])
  {
    assert forall id :: Eligible(db, id, Unix(e.now), execs) ==> id in e.oldest.value;
    assert forall id :: Killable(db, id, e.rss) ==> id in e.running.value;
  }

  /** Where reading the running rows breaks off after the first, an emergency tick goes for that one
      although another holds most of the memory. */
  lemma {:induction false} CutListingSparesHeaviest() returns (db: Db, cfg: Config, e: Env)
    ensures EnvOk(db, e) && Killable(db, "b", e.rss) && Killable(db, "a", e.rss) && e.rss["b"] > e.rss["a"]
    ensures forall target :: RightTarget(db, target, cfg, e, []) ==> target == Some("a")
  {
    var row := Row(Running, [], "public", Sleep, None, Some("g"), None, 0, 0, 0, None, None, None, None, None, None);
    db := Db(map["a" := row, "b" := row], map[], map[]);
    cfg := Config(15.0, 10.0, 5.0);
    e := Env(9 * NANOS, Some(MemInfo(100, 2)), None, Some(["a"]), map["a" := 1, "b" := 9],
             Reaping.Faults(false, {}, {}, {}));
    assert AvailablePct(e.reading.value) == 2.0;
    forall target | RightTarget(db, target, cfg, e, [])
      ensures target == Some("a")
    {
      assert "a" in e.running.value && Killable(db, "a", e.rss);
    }
  }

  /** An always-on sandbox is stopped by a tick only in the emergency band, and only as the
      heaviest of those listed. */
  lemma {:induction false} AlwaysOnOnlyInEmergency(db: Db, id: string, cfg: Config, e: Env, execs: seq<ExecCall>)
    requires RightTarget(db, Some(id), cfg, e, execs) && db.sandboxes[id].policy == AlwaysOn
    ensures e.reading.Some? && AvailablePct(e.reading.value) < cfg.emergency
    ensures e.running.Some? && Heaviest(db, id, e.running.value, e.rss)
  {
  }

  /** One tick that can only go for a sandbox in the middle of a coding task, and stops it. */
  lemma {:induction false} PressureMayInterruptTask() returns (db: Db, cfg: Config, e: Env)
    ensures EnvOk(db, e) && Idle.HasRunningTask(db, "a") && "a" in db.sandboxes
    ensures forall target :: RightTarget(db, target, cfg, e, []) ==> target == Some("a")
    ensures AfterStop(db.sandboxes["a"], "a", Unix(e.now), e.faults).status == Stopped
  {
    var row := Row(Running, [], "public", Sleep, None, None, None, 0, 0, 0, None, None, None, None, None, None);
    db := Db(map["a" := row], map[], map["t" := TaskRow("a", TaskRunning, None, 0, None)]);
    cfg := Config(15.0, 10.0, 5.0);
    e := Env(9 * NANOS, Some(MemInfo(100, 12)), Some(["a"]), None, map[], Reaping.Faults(false, {}, {}, {}));
    assert db.tasks["t"].sandbox == "a";
    assert AvailablePct(e.reading.value) == 12.0;
    assert Unix(e.now) == 9;
    assert Eligible(db, "a", 9, []);
    forall target | RightTarget(db, target, cfg, e, [])
      ensures target == Some("a")
    {
      assert target.Some? ==> Eligible(db, target.value, 9, []);
    }
  }
}
