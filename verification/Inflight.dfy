/** The count of running exec calls per sandbox
    (control-plane/internal/activity/inflight_exec.go). */
module Inflight {

  datatype ExecCall = Enter(id: string) | Exit(id: string)

  /** The counter of one sandbox after a history of calls; an exit at zero is ignored. */
  function Count(calls: seq<ExecCall>, id: string): nat {
    if calls == [] then 0
    else
      var before := Count(calls[..|calls| - 1], id);
      match calls[|calls| - 1]
      case Enter(k) => if k == id then before + 1 else before
      case Exit(k) => if k == id && before > 0 then before - 1 else before
  }

  /** Enters minus exits. */
  function Balance(calls: seq<ExecCall>, id: string): int {
    if calls == [] then 0
    else
      var before := Balance(calls[..|calls| - 1], id);
      match calls[|calls| - 1]
      case Enter(k) => if k == id then before + 1 else before
      case Exit(k) => if k == id then before - 1 else before
  }

  class InflightExec {
    var n: map<string, int>
    ghost var calls: seq<ExecCall>

    /** The map holds the non-zero counters and nothing else. */
    ghost predicate Valid()
      reads this
    {
      forall id :: (id in n <==> Count(calls, id) > 0) && (id in n ==> n[id] == Count(calls, id))
    }

    constructor ()
      ensures Valid() && calls == []
    {
      n, calls := map[], [];
    }

    method Enter(id: string)
      requires Valid()
      modifies this
      ensures Valid() && calls == old(calls) + [ExecCall.Enter(id)]
    {
      n := n[id := (if id in n then n[id] else 0) + 1];
      calls := calls + [ExecCall.Enter(id)];
      assert calls[..|calls| - 1] == old(calls);
    }

    method Exit(id: string)
      requires Valid()
      modifies this
      ensures Valid() && calls == old(calls) + [ExecCall.Exit(id)]
    {
      if id in n && n[id] > 0 {
        n := n[id := n[id] - 1];
        if n[id] == 0 {
          n := n - {id};
        }
      }
      calls := calls + [ExecCall.Exit(id)];
      assert calls[..|calls| - 1] == old(calls);
    }

    method Active(id: string) returns (active: bool)
      requires Valid()
      ensures active <==> Count(calls, id) > 0
    {
      return id in n && n[id] > 0;
    }
  }

  // --- sessions ----------------------------------------------------------------------------------

  /** An exec request: `Enter` when it starts and, deferred, `Exit` when it returns. Requests are
      numbered; `open` are the running ones with their sandboxes, `used` all so far. */
  datatype Sessions = Sessions(open: map<nat, string>, used: set<nat>, calls: seq<ExecCall>)

  datatype Event = Begin(session: nat, id: string) | End(session: nat)

  /** One event; a number is used once, and only a running request returns. */
  function Next(s: Sessions, e: Event): Sessions {
    match e
    case Begin(n, id) =>
      if n in s.used then s
      else Sessions(s.open[n := id], s.used + {n}, s.calls + [ExecCall.Enter(id)])
    case End(n) =>
      if n !in s.open then s
      else Sessions(s.open - {n}, s.used, s.calls + [ExecCall.Exit(s.open[n])])
  }

  function Run(s: Sessions, events: seq<Event>): Sessions {
    if events == [] then s else Next(Run(s, events[..|events| - 1]), events[|events| - 1])
  }

  function Running(open: map<nat, string>, id: string): set<nat> {
    set n | n in open && open[n] == id
  }

  lemma {:induction false} BeginAdds(open: map<nat, string>, n: nat, k: string, id: string)
    requires n !in open
    ensures |Running(open[n := k], id)| == |Running(open, id)| + if k == id then 1 else 0
  {
    assert Running(open[n := k], id) == Running(open, id) + (if k == id then {n} else {});
  }

  lemma {:induction false} EndRemoves(open: map<nat, string>, n: nat, id: string)
    requires n in open
    ensures |Running(open, id)| == |Running(open - {n}, id)| + if open[n] == id then 1 else 0
  {
    assert Running(open, id) == Running(open - {n}, id) + (if open[n] == id then {n} else {});
  }

  /** However exec requests overlap, a sandbox's counter is the number of its requests still
      running; so it is active exactly while one is. */
  lemma {:induction false} CountIsRunning(events: seq<Event>, id: string)
    ensures var s := Run(Sessions(map[], {}, []), events);
      && s.open.Keys <= s.used
      && Count(s.calls, id) == |Running(s.open, id)|
      && (Count(s.calls, id) > 0 <==> exists n :: n in s.open && s.open[n] == id)
    decreases |events|
  {
    var init := Sessions(map[], {}, []);
    if events == [] {
      assert Running(init.open, id) == {};
    } else {
      var front, e := events[..|events| - 1], events[|events| - 1];
      CountIsRunning(front, id);
      var s := Run(init, front);
      var s' := Next(s, e);
      if s' != s {
        assert s'.calls[..|s'.calls| - 1] == s.calls;
        match e {
          case Begin(n, k) => BeginAdds(s.open, n, k, id);
          case End(n) => EndRemoves(s.open, n, id);
        }
      }
      if n :| n in s'.open && s'.open[n] == id {
        assert n in Running(s'.open, id);
      }
      if Running(s'.open, id) != {} {
        var n :| n in Running(s'.open, id);
        assert s'.open[n] == id;
      }
    }
  }

  lemma {:induction false} CountIsAtLeastBalance(calls: seq<ExecCall>, id: string)
    ensures Count(calls, id) >= Balance(calls, id)
    decreases |calls|
  {
    if calls != [] {
      CountIsAtLeastBalance(calls[..|calls| - 1], id);
    }
  }

  /** The counter is exactly enters minus exits as long as no prefix of the history has more
      exits than enters, and from such a prefix on it is larger for good. */
  lemma {:induction false} CountIsBalanceIff(calls: seq<ExecCall>, id: string)
    ensures Count(calls, id) == Balance(calls, id) <==> forall i :: 0 <= i <= |calls| ==> Balance(calls[..i], id) >= 0
    decreases |calls|
  {
    if calls == [] {
      assert calls[..0] == [];
    } else {
      var front := calls[..|calls| - 1];
      CountIsBalanceIff(front, id);
      CountIsAtLeastBalance(front, id);
      forall i | 0 <= i <= |front|
        ensures front[..i] == calls[..i]
      {
      }
      assert calls[..|calls|] == calls;
      assert calls[..|front|] == front;
      assert Balance(calls, id) < 0 ==> Balance(calls[..|calls|], id) < 0;
    }
  }
}
