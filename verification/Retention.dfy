/** Listing and pruning the snapshots of one sandbox
    (control-plane/internal/snapshot/snapshot.go `List`, control-plane/internal/snapshot/prune.go). */
module Retention {
  import opened Common
  import opened Timestamps

  const SUFFIX := ".img.zst"

  predicate HasSuffix(s: string, suffix: string) {
    |suffix| <= |s| && s[|s| - |suffix|..] == suffix
  }

  function Trim(name: string): string
    requires HasSuffix(name, SUFFIX)
  {
    name[..|name| - |SUFFIX|]
  }

  ghost predicate Descending(tss: seq<string>) {
    forall i, j :: 0 <= i < j < |tss| ==> Less(tss[j], tss[i])
  }

  /** The place sorting gives a name: before the first smaller one. */
  function InsertDesc(tss: seq<string>, ts: string): seq<string>
    decreases |tss|
  {
    if tss == [] || Less(tss[0], ts) then [ts] + tss
    else [tss[0]] + InsertDesc(tss[1..], ts)
  }

  lemma {:induction false} InsertDescMembers(tss: seq<string>, ts: string, x: string)
    ensures x in InsertDesc(tss, ts) <==> x == ts || x in tss
    decreases |tss|
  {
    if tss != [] {
      InsertDescMembers(tss[1..], ts, x);
      assert tss == [tss[0]] + tss[1..];
    }
  }

  lemma {:induction false} InsertDescSorted(tss: seq<string>, ts: string)
    requires Descending(tss) && ts !in tss
    ensures Descending(InsertDesc(tss, ts))
    decreases |tss|
  {
    if tss == [] {
    } else if Less(tss[0], ts) {
      forall j | 0 <= j < |tss|
        ensures Less(tss[j], ts)
      {
        if j > 0 {
          LessIsTransitive(tss[j], tss[0], ts);
        }
      }
    } else {
      var rest := InsertDesc(tss[1..], ts);
      InsertDescSorted(tss[1..], ts);
      forall j | 0 <= j < |rest|
        ensures Less(rest[j], tss[0])
      {
        InsertDescMembers(tss[1..], ts, rest[j]);
        LessIsTotal(tss[0], ts);
      }
    }
  }

  /** The timestamps of the directory entries that are snapshots, newest first. */
  method List(entries: seq<string>) returns (out: seq<string>)
    requires forall i, j :: 0 <= i < j < |entries| ==> entries[i] != entries[j]
    ensures Descending(out)
    ensures forall ts :: ts in out <==> ts + SUFFIX in entries
  {
    out := [];
    for i := 0 to |entries|
      invariant Descending(out)
      invariant forall ts :: ts in out <==> ts + SUFFIX in entries[..i]
    {
      var name := entries[i];
      assert entries[..i + 1] == entries[..i] + [name];
      if HasSuffix(name, SUFFIX) {
        var ts := Trim(name);
        assert ts + SUFFIX == name;
        ghost var before := out;
        InsertDescSorted(out, ts);
        out := InsertDesc(out, ts);
        forall x
          ensures x in out <==> x + SUFFIX in entries[..i + 1]
        {
          InsertDescMembers(before, ts, x);
          assert x + SUFFIX == name ==> x == (x + SUFFIX)[..|name| - |SUFFIX|] == ts;
        }
      } else {
        forall x
          ensures x + SUFFIX != name
        {
          assert HasSuffix(x + SUFFIX, SUFFIX);
        }
      }
    }
    assert entries[..|entries|] == entries;
  }

  // --- which snapshots survive ------------------------------------------------------------

  /** The greatest name; with `List`, the first. */
  ghost predicate IsNewest(ts: string, all: set<string>) {
    ts in all && forall u | u in all :: u == ts || Less(u, ts)
  }

  /** `cutoff` is the first second that is not older than the window. A name that is not a
      timestamp never expires. */
  predicate Expired(ts: string, cutoff: int) {
    Parse(ts).Some? && Instant(Parse(ts).value) < cutoff
  }

  ghost function Survivors(all: set<string>, cutoff: int): set<string> {
    set ts | ts in all && (IsNewest(ts, all) || !Expired(ts, cutoff))
  }

  lemma {:induction false} NewestExists(all: set<string>) returns (ts: string)
    requires all != {}
    ensures IsNewest(ts, all)
    decreases |all|
  {
    var x :| x in all;
    if all == {x} {
      ts := x;
    } else {
      var rest := all - {x};
      var y := NewestExists(rest);
      LessIsTotal(x, y);
      if Less(x, y) {
        ts := y;
        assert all == rest + {x};
      } else {
        ts := x;
        forall u | u in all
          ensures u == x || Less(u, x)
        {
          if u != x && u != y {
            LessIsTransitive(u, y, x);
          }
        }
      }
    }
  }

  lemma {:induction false} NewestIsUnique(s: string, t: string, all: set<string>)
    requires IsNewest(s, all) && IsNewest(t, all)
    ensures s == t
  {
    LessIsTotal(s, t);
  }

  lemma {:induction false} FirstIsNewest(tss: seq<string>, all: set<string>)
    requires tss != [] && Descending(tss) && forall ts :: ts in tss <==> ts in all
    ensures IsNewest(tss[0], all)
    ensures forall i | 1 <= i < |tss| :: !IsNewest(tss[i], all)
  {
    forall i | 1 <= i < |tss|
      ensures !IsNewest(tss[i], all)
    {
      LessIsTotal(tss[i], tss[0]);
    }
  }

  /** Pruning leaves exactly the greatest name, the names that are no time and the times inside the
      window (so the snapshot just taken), never empties a non-empty set, and a second time changes
      nothing. */
  lemma {:induction false} PruneProperties(all: set<string>, cutoff: int)
    ensures forall ts :: ts in Survivors(all, cutoff) <==>
      && ts in all
      && ((forall u | u in all :: u == ts || Less(u, ts)) || Parse(ts).None? || Instant(Parse(ts).value) >= cutoff)
    ensures all != {} ==> Survivors(all, cutoff) != {}
    ensures Survivors(Survivors(all, cutoff), cutoff) == Survivors(all, cutoff)
  {
    if all != {} {
      var n := NewestExists(all);
      var left := Survivors(all, cutoff);
      assert n in left && IsNewest(n, left);
      forall ts | ts in left
        ensures ts in Survivors(left, cutoff)
      {
        if IsNewest(ts, all) {
          NewestIsUnique(ts, n, all);
        }
      }
    }
  }

  /** When every name is a timestamp, the one always kept is the latest in time. */
  lemma {:induction false} KeptIsLatest(all: set<string>, ts: string, u: string)
    requires forall x | x in all :: Parse(x).Some?
    requires IsNewest(ts, all) && u in all
    ensures Instant(Parse(u).value) <= Instant(Parse(ts).value)
  {
    if u != ts {
      NamesSortInTime(u, ts);
    }
  }

  /** The latest well-formed snapshot.*/
  ghost predicate IsLatest(ts: string, all: set<string>) {
    && ts in all && Parse(ts).Some?
    && forall u | u in all && Parse(u).Some? :: u == ts || Less(u, ts)
  }

  /** A stray file that sorts last takes the place of the kept one: the latest real snapshot
      survives exactly when it is inside the window or no stray name sorts after it. */
  lemma {:induction false} LatestSurvivesIff(all: set<string>, ts: string, cutoff: int)
    requires IsLatest(ts, all)
    ensures ts in Survivors(all, cutoff) <==>
      !Expired(ts, cutoff) || !(exists u :: u in all && Parse(u).None? && Less(ts, u))
  {
    if IsNewest(ts, all) {
      forall u | u in all
        ensures !Less(ts, u)
      {
        LessIsTotal(ts, u);
      }
    } else {
      var u :| u in all && u != ts && !Less(u, ts);
      LessIsTotal(u, ts);
    }
  }

  lemma {:induction false} StraySorts(ts: string)
    requires Parse(ts).Some?
    ensures Less(ts, "z") && Parse("z").None?
  {
    assert IsDigit(ts[0]);
  }

  /** Such directories: pruning removes the only real snapshot and keeps a stray file. */
  lemma {:induction false} StrayNameWins(ts: string, cutoff: int)
    requires Expired(ts, cutoff)
    ensures IsLatest(ts, {ts, "z"}) && ts !in Survivors({ts, "z"}, cutoff) && "z" in Survivors({ts, "z"}, cutoff)
  {
    var all := {ts, "z"};
    StraySorts(ts);
    assert "z" in all;
    LatestSurvivesIff(all, ts, cutoff);
  }

  /** Any snapshot can be lost that way, as soon as it has left the window: here, after one second. */
  lemma {:induction false} StrayNameLosesLatest(c: Civil)
    requires IsValid(c)
    ensures var ts, cutoff := Format(c), Instant(c) + 1;
      IsLatest(ts, {ts, "z"}) && ts !in Survivors({ts, "z"}, cutoff) && "z" in Survivors({ts, "z"}, cutoff)
  {
    ParseFormat(c);
    StrayNameWins(Format(c), Instant(c) + 1);
  }

  /** For instance the first one there can be. */
  lemma {:induction false} StrayNameLosesFirst() returns (c: Civil)
    ensures IsValid(c) && Format(c) !in Survivors({Format(c), "z"}, Instant(c) + 1)
  {
    c := Civil(0, 1, 1, 0, 0, 0);
    StrayNameLosesLatest(c);
  }
}
