/** The snapshot operations step by step, in the source's order, each tied to the states and
    the outcome `SnapshotDisk` gives it (control-plane/internal/snapshot/). */
module SnapshotManager {
  import opened Common
  import opened Timestamps
  import opened Retention
  import opened SnapshotDisk

  class Manager {
    var img: Option<Blob>
    var baks: map<int, Blob>
    var snaps: map<string, Archive>
    var tmps: map<string, Archive>
    var metas: set<string>
    /** Every state the disk has been in: what a crash could have left. */
    ghost var seen: seq<Disk>

    ghost function Abs(): Disk
      reads this
    {
      Disk(img, baks, snaps, tmps, metas)
    }

    /** Called after each change of the disk. */
    ghost method See()
      modifies this`seen
      ensures seen == old(seen) + [Abs()]
    {
      seen := seen + [Abs()];
    }

    /** `Restore`'s rollback closure over the name of the backup. */
    method Abort(bak: Option<int>, w: RestoreWorld)
      requires bak == None || bak == Some(w.now)
      modifies this
      ensures seen == old(seen) + Rollback(old(Abs()), bak.Some?, w)
      ensures Abs() == Last(Rollback(old(Abs()), bak.Some?, w))
    {
      if w.removeOk {
        img := None;
      }
      See();
      if bak.Some? && w.moveBackOk && bak.value in baks {
        img := Some(baks[bak.value]);
        baks := baks - {bak.value};
        See();
      }
    }

    /** The checks before anything moves. */
    method CheckRestore(ts: string, w: RestoreWorld) returns (r: Option<Refusal>)
      ensures r == Refuses(Abs(), ts, w)
    {
      if ts !in snaps {
        return Some(NoSuchSnapshot);
      }
      if w.row == RowRunning {
        return Some(StillRunning);
      }
      if w.row == RowUnreadable {
        return Some(StoreError);
      }
      if w.mounted && !w.umountOk {
        return Some(UmountError);
      }
      if img.Some? && !w.moveOk {
        return Some(MoveError);
      }
      return None;
    }

    method MoveAside(w: RestoreWorld) returns (bak: Option<int>)
      modifies this
      ensures bak == if old(img).Some? then Some(w.now) else None
      ensures Abs() == Aside(old(Abs()), w)
      ensures old(img).Some? ==> seen == old(seen) + [Abs()]
      ensures old(img).None? ==> seen == old(seen)
    {
      bak := None;
      if img.Some? {
        bak := Some(w.now);
        baks := baks[w.now := img.value];
        img := None;
        See();
      }
    }

    method Restore(ts: string, w: RestoreWorld) returns (out: RestoreOutcome)
      modifies this
      ensures out == RestoreResult(old(Abs()), ts, w)
      ensures seen == old(seen) + RestoreTrace(old(Abs()), ts, w)
      ensures Abs() == Last(RestoreTrace(old(Abs()), ts, w))
    {
      ghost var d := Abs();
      See();
      var refused := CheckRestore(ts, w);
      if refused.Some? {
        return Refused(refused.value);
      }
      var bak := MoveAside(w);
      assert seen == old(seen) + Prepare(d, w);
      out := Install(ts, bak, w);
      Chain(old(seen), Prepare(d, w), InstallTrace(Aside(d, w), ts, bak.Some?, w));
    }

    /** Decompress over the empty place. */
    method Unzip(ts: string, w: RestoreWorld) returns (ok: bool)
      requires ts in snaps
      modifies this
      ensures Abs() == old(Abs()).(img := Unzipped(old(Abs()), ts, w))
      ensures seen == old(seen) + [old(Abs()).(img := Some(w.partial)), Abs()]
      ensures ok == (old(snaps)[ts].Zst? && w.unzipOk)
    {
      img := Some(w.partial);
      See();
      ok := snaps[ts].Zst? && w.unzipOk;
      img := if ok then Some(snaps[ts].bytes) else w.leftover;
      See();
    }

    /** The second half: decompress, check, and keep or give up. */
    method Install(ts: string, bak: Option<int>, w: RestoreWorld) returns (out: RestoreOutcome)
      requires ts in snaps && (bak == None || bak == Some(w.now))
      modifies this
      ensures FailsAt(old(Abs()), ts, w).Some? ==> out == Aborted(FailsAt(old(Abs()), ts, w).value)
      ensures FailsAt(old(Abs()), ts, w).None? ==> out == Restored
      ensures seen == old(seen) + InstallTrace(old(Abs()), ts, bak.Some?, w)
      ensures Abs() == Last(InstallTrace(old(Abs()), ts, bak.Some?, w))
    {
      ghost var a := Abs();
      var unzipped := Unzip(ts, w);
      ghost var z := Abs();
      if unzipped && w.fsckOk && w.mountOk && !w.skelAtRoot {
        if bak.Some? && w.dropOk {
          baks := baks - {bak.value};
          See();
        }
        assert FailsAt(a, ts, w).None?;
        return Restored;
      }
      Abort(bak, w);
      Chain(old(seen), [a.(img := Some(w.partial)), z], Rollback(z, bak.Some?, w));
      out := Aborted(if !unzipped then Decompress else if !w.fsckOk then Fsck
                     else if !w.mountOk then Mount else Sanity);
    }

    method CheckTake(w: TakeWorld) returns (r: Option<TakeOutcome>)
      ensures r == TakeRefuses(Abs(), w)
    {
      if img.None? {
        return Some(NoImage);
      }
      if w.row == RowRunning {
        return Some(TakeRunning);
      }
      if w.row == RowUnreadable {
        return Some(TakeStoreError);
      }
      if !w.mkdirOk || !w.statOk {
        return Some(TakeFailed);
      }
      return None;
    }

    /** Give up the half-written file. */
    method Discard(ts: string, w: TakeWorld)
      modifies this
      ensures Abs() == DropTmp(old(Abs()), ts, w) && seen == old(seen) + [Abs()]
    {
      if w.removeOk {
        tmps := tmps - {ts};
      }
      See();
    }

    /** Give the finished file its name, then its sidecar. */
    method Name(ts: string, w: TakeWorld)
      requires ts in tmps
      modifies this
      ensures var d := old(Abs());
        var named := d.(snaps := d.snaps[ts := d.tmps[ts]], tmps := d.tmps - {ts});
        && Abs() == (if w.finalStatOk && w.metaOk then named.(metas := named.metas + {ts}) else named)
        && seen == old(seen) + [named] + (if w.finalStatOk && w.metaOk then [Abs()] else [])
    {
      snaps := snaps[ts := tmps[ts]];
      tmps := tmps - {ts};
      See();
      if w.finalStatOk && w.metaOk {
        metas := metas + {ts};
        See();
      }
    }

    /** Compress into the half-written file and sync it. */
    method Zip(ts: string, w: TakeWorld) returns (ok: bool)
      requires img.Some?
      modifies this
      ensures var d := old(Abs());
        var cut := d.(tmps := d.tmps[ts := Cut]);
        var full := d.(tmps := d.tmps[ts := Zst(d.img.value)]);
        && Abs() == (if w.zipOk then full else cut)
        && seen == old(seen) + [cut] + (if w.zipOk then [full] else [])
      ensures ok == (w.zipOk && w.syncOk)
    {
      tmps := tmps[ts := Cut];
      See();
      if !w.zipOk {
        return false;
      }
      tmps := tmps[ts := Zst(img.value)];
      See();
      return w.syncOk;
    }

    /** `takeLocked` up to pruning. */
    method TakeLocked(ts: string, w: TakeWorld) returns (out: TakeOutcome)
      modifies this
      ensures out == TakeResult(old(Abs()), w)
      ensures seen == old(seen) + TakeTrace(old(Abs()), ts, w)
      ensures Abs() == Last(TakeTrace(old(Abs()), ts, w))
    {
      ghost var d := Abs();
      See();
      var refused := CheckTake(w);
      if refused.Some? {
        return refused.value;
      }
      var zipped := Zip(ts, w);
      if !zipped || !w.renameOk {
        Discard(ts, w);
        return TakeFailed;
      }
      Name(ts, w);
      ghost var full := d.(tmps := d.tmps[ts := Zst(d.img.value)]);
      assert full.tmps - {ts} == d.tmps - {ts};
      out := if w.finalStatOk then Taken else TakeFailed;
    }

    /** The snapshot and its sidecar, if the name is expired, as far as each can be removed. */
    method DeleteOne(ts: string, w: PruneWorld)
      modifies this
      ensures Abs() == PruneOne(old(Abs()), ts, w)
    {
      if Expired(ts, w.cutoff) {
        if ts !in w.stuckSnaps {
          snaps := snaps - {ts};
        }
        if ts !in w.stuckMetas {
          metas := metas - {ts};
        }
      }
    }

    /** The deletion loop over the names after the newest. */
    method DeleteExpired(rest: seq<string>, w: PruneWorld)
      modifies this
      ensures Abs() == Last(PruneTrace(old(Abs()), rest, w))
    {
      ghost var d := Abs();
      assert rest[0..] == rest;
      for i := 0 to |rest|
        invariant Last(PruneTrace(Abs(), rest[i..], w)) == Last(PruneTrace(d, rest, w))
      {
        PruneStep(Abs(), rest[i..], w);
        assert rest[i..][1..] == rest[i + 1..];
        DeleteOne(rest[i], w);
      }
    }

    /** The snapshot files of the directory, in any order. The sidecars and half-written files
        beside them have other suffixes, which `List` skips. */
    method ReadDir() returns (entries: seq<string>)
      ensures forall i, j :: 0 <= i < j < |entries| ==> entries[i] != entries[j]
      ensures forall ts :: ts + SUFFIX in entries <==> ts in snaps
    {
      var left := snaps.Keys;
      entries := [];
      while left != {}
        invariant left <= snaps.Keys
        invariant forall i, j :: 0 <= i < j < |entries| ==> entries[i] != entries[j]
        invariant forall ts :: ts + SUFFIX in entries <==> ts in snaps.Keys - left
        decreases |left|
      {
        var ts :| ts in left;
        assert ts + SUFFIX !in entries;
        forall x
          ensures x + SUFFIX in entries + [ts + SUFFIX] <==> x in snaps.Keys - (left - {ts})
        {
          SuffixCancels(x, ts);
        }
        entries := entries + [ts + SUFFIX];
        left := left - {ts};
      }
    }

    /** `pruneLocked`: what is left is exactly the newest, the unexpired and what cannot be
        removed; nothing changes if the directory cannot be read. */
    method PruneLocked(w: PruneWorld) returns (ok: bool)
      modifies this
      ensures ok == w.listOk
      ensures img == old(img) && baks == old(baks) && tmps == old(tmps)
      ensures snaps.Keys == if w.listOk then Left(old(snaps).Keys, w) else old(snaps).Keys
      ensures forall ts | ts in snaps :: ts in old(snaps) && snaps[ts] == old(snaps)[ts]
    {
      if !w.listOk {
        return false;
      }
      var entries := ReadDir();
      var tss := List(entries);
      if tss != [] {
        FirstIsNewest(tss, snaps.Keys);
        PruneExact(Abs(), tss, w);
      }
      if |tss| <= 1 {
        assert tss != [] ==> PruneTrace(Abs(), tss[1..], w) == [Abs()];
        assert tss == [] ==> snaps.Keys == {};
        return true;
      }
      assert OnlyForgets(Last(PruneTrace(Abs(), tss[1..], w)), Abs());
      DeleteExpired(tss[1..], w);
      ok := true;
    }

    /** `Take`: the snapshot, then retention, under one lock; that retention failed is only logged.
        Unless the window ends after the new name's time, the new snapshot survives, holding the
        live image's bytes. */
    method Take(ts: string, w: TakeWorld, pw: PruneWorld) returns (out: TakeOutcome)
      modifies this
      ensures out == TakeResult(old(Abs()), w)
      ensures img == old(img) && baks == old(baks)
      ensures out == Taken && !Expired(ts, pw.cutoff) ==> ts in snaps && snaps[ts] == Zst(old(img).value)
      ensures out == Taken ==>
        var all := old(snaps).Keys + {ts}; snaps.Keys == if pw.listOk then Left(all, pw) else all
      ensures forall t | t in snaps && t != ts :: t in old(snaps) && snaps[t] == old(snaps)[t]
    {
      out := TakeLocked(ts, w);
      if out == Taken {
        assert snaps.Keys == old(snaps).Keys + {ts};
        var _ := PruneLocked(pw);
        PruneProperties(old(snaps).Keys + {ts}, pw.cutoff);
      }
    }
  }

  lemma {:induction false} Chain(a: seq<Disk>, b: seq<Disk>, c: seq<Disk>)
    ensures a + b + c == a + (b + c)
    ensures c != [] ==> Last(b + c) == Last(c)
  {
  }

  lemma {:induction false} SuffixCancels(x: string, y: string)
    ensures x + SUFFIX == y + SUFFIX <==> x == y
  {
    assert x == (x + SUFFIX)[..|x + SUFFIX| - |SUFFIX|];
    assert y == (y + SUFFIX)[..|y + SUFFIX| - |SUFFIX|];
  }
}
