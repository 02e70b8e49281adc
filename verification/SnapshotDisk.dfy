/** What is on disk for one sandbox while snapshots are taken, restored, pruned and swept, with
    every intermediate state a crash could leave (control-plane/internal/snapshot/take.go,
    restore.go, prune.go, snapshotter.go). The per-id lock serialises these operations. */
module SnapshotDisk {
  import opened Common
  import opened Retention

  type Blob = string

  /** A compressed image; `Cut` is one whose writing was interrupted. Decompressing `Zst(b)`
      gives `b` back. */
  datatype Archive = Zst(bytes: Blob) | Cut

  /** `img` is the live image, `baks` the `.img.bak-<second>` files, `snaps` and `tmps` the
      finished and half-written snapshots by timestamp, `metas` the sidecars. */
  datatype Disk = Disk(
    img: Option<Blob>,
    baks: map<int, Blob>,
    snaps: map<string, Archive>,
    tmps: map<string, Archive>,
    metas: set<string>)

  datatype RowState = NoRow | RowRunning | RowOther | RowUnreadable

  function Last(tr: seq<Disk>): Disk
    requires tr != []
  {
    tr[|tr| - 1]
  }

  // --- restore -----------------------------------------------------------------------------

  /** What `Restore` observes: `partial` is what the decompressor has written when it is cut
      off, `leftover` what it leaves when it fails; the rest is which calls succeed. */
  datatype RestoreWorld = RestoreWorld(
    row: RowState,
    mounted: bool, umountOk: bool,
    now: int, moveOk: bool,
    partial: Blob, unzipOk: bool, leftover: Option<Blob>,
    fsckOk: bool, mountOk: bool, skelAtRoot: bool,
    removeOk: bool, moveBackOk: bool, dropOk: bool)

  datatype Refusal = NoSuchSnapshot | StillRunning | StoreError | UmountError | MoveError

  datatype Stage = Decompress | Fsck | Mount | Sanity

  datatype RestoreOutcome = Restored | Refused(why: Refusal) | Aborted(stage: Stage)

  /** The precondition checks, in order. */
  function Refuses(d: Disk, ts: string, w: RestoreWorld): Option<Refusal> {
    if ts !in d.snaps then Some(NoSuchSnapshot)
    else if w.row == RowRunning then Some(StillRunning)
    else if w.row == RowUnreadable then Some(StoreError)
    else if w.mounted && !w.umountOk then Some(UmountError)
    else if d.img.Some? && !w.moveOk then Some(MoveError)
    else None
  }

  /** The current image moved aside. */
  function Aside(d: Disk, w: RestoreWorld): Disk {
    if d.img.Some? then d.(img := None, baks := d.baks[w.now := d.img.value]) else d
  }

  /** The stage at which the restored image is given up, if any. */
  function FailsAt(d: Disk, ts: string, w: RestoreWorld): Option<Stage>
    requires ts in d.snaps
  {
    if !(d.snaps[ts].Zst? && w.unzipOk) then Some(Decompress)
    else if !w.fsckOk then Some(Fsck)
    else if !w.mountOk then Some(Mount)
    else if w.skelAtRoot then Some(Sanity)
    else None
  }

  function Unzipped(d: Disk, ts: string, w: RestoreWorld): Option<Blob>
    requires ts in d.snaps
  {
    if d.snaps[ts].Zst? && w.unzipOk then Some(d.snaps[ts].bytes) else w.leftover
  }

  /** `abort`: drop the restored image, then put the original back if there was one. */
  function Rollback(d: Disk, hadImg: bool, w: RestoreWorld): (tr: seq<Disk>)
    ensures tr != []
  {
    var a := if w.removeOk then d.(img := None) else d;
    if hadImg && w.moveBackOk && w.now in a.baks
    then [a, a.(img := Some(a.baks[w.now]), baks := a.baks - {w.now})]
    else [a]
  }

  function Prepare(d: Disk, w: RestoreWorld): seq<Disk> {
    if d.img.Some? then [d, Aside(d, w)] else [d]
  }

  /** From the place being free on: the decompressor's partial output, its result, and then
      either the rollback or the clean-up. */
  function InstallTrace(a: Disk, ts: string, hadImg: bool, w: RestoreWorld): (tr: seq<Disk>)
    requires ts in a.snaps
    ensures |tr| >= 2
  {
    var z := a.(img := Unzipped(a, ts, w));
    [a.(img := Some(w.partial)), z] +
    if FailsAt(a, ts, w).Some? then Rollback(z, hadImg, w)
    else if hadImg && w.dropOk then [z.(baks := z.baks - {w.now})] else []
  }

  /** Every state of the disk during a restore, first to last. */
  function RestoreTrace(d: Disk, ts: string, w: RestoreWorld): (tr: seq<Disk>)
    ensures tr != []
  {
    if Refuses(d, ts, w).Some? then [d]
    else Prepare(d, w) + InstallTrace(Aside(d, w), ts, d.img.Some?, w)
  }

  function RestoreResult(d: Disk, ts: string, w: RestoreWorld): RestoreOutcome {
    if Refuses(d, ts, w).Some? then Refused(Refuses(d, ts, w).value)
    else if FailsAt(d, ts, w).Some? then Aborted(FailsAt(d, ts, w).value)
    else Restored
  }

  /** The bytes are still somewhere a restore or an operator can reach. */
  ghost predicate Has(d: Disk, b: Blob) {
    d.img == Some(b) || exists n :: n in d.baks && d.baks[n] == b
  }

  /** At every moment of a restore the original image is on disk, live or aside; the one
      exception is the very last state of a restore that succeeded. */
  lemma {:induction false} OriginalNeverLost(d: Disk, ts: string, w: RestoreWorld, o: Blob, i: nat)
    requires d.img == Some(o) && i < |RestoreTrace(d, ts, w)|
    requires RestoreResult(d, ts, w) == Restored ==> i < |RestoreTrace(d, ts, w)| - 1
    ensures Has(RestoreTrace(d, ts, w)[i], o)
  {
    var a := Aside(d, w);
    assert a.baks[w.now] == o;
    var st := RestoreTrace(d, ts, w)[i];
    assert st.img == Some(o) || (w.now in st.baks && st.baks[w.now] == o);
  }

  /** An aborted restore whose rollback calls succeed leaves the disk as it found it, and a
      refused one always does. */
  lemma {:induction false} AbortRestoresDisk(d: Disk, ts: string, w: RestoreWorld)
    requires RestoreResult(d, ts, w) != Restored
    requires RestoreResult(d, ts, w).Refused? || (w.removeOk && w.moveBackOk && w.now !in d.baks)
    ensures Last(RestoreTrace(d, ts, w)) == d
  {
    if d.img.Some? && w.now !in d.baks {
      assert d.baks[w.now := d.img.value] - {w.now} == d.baks;
    }
  }

  /** Which of the rollback calls matter: with an original to put back, exactly the rename,
      unless neither call worked and the decompressor happened to produce the same bytes;
      without one, the removal or the decompressor leaving nothing. */
  lemma {:induction false} AbortKeepsImageIff(d: Disk, ts: string, w: RestoreWorld)
    requires RestoreResult(d, ts, w).Aborted?
    ensures d.img.Some? ==>
      (Last(RestoreTrace(d, ts, w)).img == d.img <==>
        w.moveBackOk || (!w.removeOk && Unzipped(d, ts, w) == d.img))
    ensures d.img.None? ==>
      (Last(RestoreTrace(d, ts, w)).img == d.img <==> w.removeOk || Unzipped(d, ts, w).None?)
  {
  }

  /** A restore that succeeds leaves exactly the decompressed snapshot live, and the snapshots
      as they were. */
  lemma {:induction false} RestoredIsSnapshot(d: Disk, ts: string, w: RestoreWorld)
    requires RestoreResult(d, ts, w) == Restored
    ensures ts in d.snaps && d.snaps[ts].Zst?
    ensures var e := Last(RestoreTrace(d, ts, w));
      && e.img == Some(d.snaps[ts].bytes)
      && e.snaps == d.snaps && e.tmps == d.tmps && e.metas == d.metas
      && (w.dropOk && w.now !in d.baks ==> e.baks == d.baks)
  {
    if d.img.Some? {
      assert w.now !in d.baks ==> d.baks[w.now := d.img.value] - {w.now} == d.baks;
    }
  }

  /** A restore succeeds exactly when nothing it calls fails, up to the clean-up. */
  lemma {:induction false} RestoredIff(d: Disk, ts: string, w: RestoreWorld)
    ensures RestoreResult(d, ts, w) == Restored <==>
      && ts in d.snaps && d.snaps[ts].Zst?
      && w.row != RowRunning && w.row != RowUnreadable
      && (w.mounted ==> w.umountOk) && (d.img.Some? ==> w.moveOk)
      && w.unzipOk && w.fsckOk && w.mountOk && !w.skelAtRoot
  {
  }

  /** The disk and the row let the restore start. */
  predicate MayRestore(d: Disk, ts: string, w: RestoreWorld) {
    && ts in d.snaps && w.row != RowRunning && w.row != RowUnreadable
    && (w.mounted ==> w.umountOk) && (d.img.Some? ==> w.moveOk)
  }

  /** And each other outcome exactly on its condition, the first in order. */
  lemma {:induction false} RestoreAnswers(d: Disk, ts: string, w: RestoreWorld)
    ensures var r := RestoreResult(d, ts, w);
      && (r == Refused(NoSuchSnapshot) <==> ts !in d.snaps)
      && (r == Refused(StillRunning) <==> ts in d.snaps && w.row == RowRunning)
      && (r == Refused(StoreError) <==> ts in d.snaps && w.row == RowUnreadable)
      && (r == Refused(UmountError) <==>
            ts in d.snaps && w.row != RowRunning && w.row != RowUnreadable && w.mounted && !w.umountOk)
      && (r == Refused(MoveError) <==>
            ts in d.snaps && w.row != RowRunning && w.row != RowUnreadable && (w.mounted ==> w.umountOk)
            && d.img.Some? && !w.moveOk)
      && (r == Aborted(Decompress) <==> MayRestore(d, ts, w) && (d.snaps[ts].Cut? || !w.unzipOk))
      && (r == Aborted(Fsck) <==> MayRestore(d, ts, w) && d.snaps[ts].Zst? && w.unzipOk && !w.fsckOk)
      && (r == Aborted(Mount) <==>
            MayRestore(d, ts, w) && d.snaps[ts].Zst? && w.unzipOk && w.fsckOk && !w.mountOk)
      && (r == Aborted(Sanity) <==>
            MayRestore(d, ts, w) && d.snaps[ts].Zst? && w.unzipOk && w.fsckOk && w.mountOk && w.skelAtRoot)
  {
  }

  // --- sweeping after a crash ------------------------------------------------------------

  /** `SweepStale` for this sandbox, where removing the named files works. */
  function Swept(d: Disk, tmpsGone: set<string>, baksGone: set<int>): Disk {
    d.(tmps := d.tmps - tmpsGone, baks := if d.img.Some? then d.baks - baksGone else d.baks)
  }

  /** A crash before decompression starts, then a boot sweep: the original survives. */
  lemma {:induction false} CrashBeforeDecompress(d: Disk, ts: string, w: RestoreWorld, o: Blob, i: nat,
                                                 tg: set<string>, bg: set<int>)
    requires d.img == Some(o) && i < |RestoreTrace(d, ts, w)| && i < 2
    ensures Has(Swept(RestoreTrace(d, ts, w)[i], tg, bg), o)
  {
    var st := RestoreTrace(d, ts, w)[i];
    assert st == d || st == Aside(d, w);
    assert i == 1 ==> Aside(d, w).baks[w.now] == o;
    if st == Aside(d, w) {
      assert w.now in Swept(st, tg, bg).baks;
    }
  }

  /** By the state the crash hit: before decompression; while the decompressor had written
      `partial`; with its result in place; with that removed again, if it could be; or with the
      original moved back. */
  predicate Survives(d: Disk, ts: string, w: RestoreWorld, o: Blob, i: nat)
    requires ts in d.snaps || i == 0
  {
    match i
    case 0 => true
    case 1 => true
    case 2 => w.partial == o
    case 3 => Unzipped(d, ts, w).None? || Unzipped(d, ts, w) == Some(o)
    case 4 => w.removeOk || Unzipped(d, ts, w).None? || Unzipped(d, ts, w) == Some(o)
    case _ => true
  }

  /** After a crash anywhere, a sweep that removes every backup it tries to keeps the original
      exactly if the crash came before decompression, or what was live then was nothing or the
      same bytes, or the rollback had already put the original back. */
  lemma {:induction false} SweepKeepsOriginalIff(d: Disk, ts: string, w: RestoreWorld, o: Blob, i: nat,
                                                 tg: set<string>, bg: set<int>)
    requires d.img == Some(o) && i < |RestoreTrace(d, ts, w)|
    requires RestoreResult(d, ts, w) == Restored ==> i < |RestoreTrace(d, ts, w)| - 1
    requires RestoreTrace(d, ts, w)[i].baks.Keys <= bg
    ensures ts in d.snaps || i == 0
    ensures Has(Swept(RestoreTrace(d, ts, w)[i], tg, bg), o) <==> Survives(d, ts, w, o, i)
  {
    LiveDecides(d, ts, w, o, i, tg, bg);
    LiveAt(d, ts, w, o, i);
  }

  /** What is live when the crash comes. */
  lemma {:induction false} LiveAt(d: Disk, ts: string, w: RestoreWorld, o: Blob, i: nat)
    requires d.img == Some(o) && i < |RestoreTrace(d, ts, w)|
    requires RestoreResult(d, ts, w) == Restored ==> i < |RestoreTrace(d, ts, w)| - 1
    ensures ts in d.snaps || i == 0
    ensures var live := RestoreTrace(d, ts, w)[i].img;
      live.None? || live == Some(o) <==> Survives(d, ts, w, o, i)
  {
    if RestoreResult(d, ts, w).Refused? {
      assert i == 0;
    } else {
      var a := Aside(d, w);
      assert Prepare(d, w) == [d, a];
      assert a.baks[w.now] == o;
      assert i >= 2 ==> RestoreTrace(d, ts, w)[i] == InstallTrace(a, ts, true, w)[i - 2];
    }
  }

  lemma {:induction false} LiveDecides(d: Disk, ts: string, w: RestoreWorld, o: Blob, i: nat,
                                       tg: set<string>, bg: set<int>)
    requires d.img == Some(o) && i < |RestoreTrace(d, ts, w)|
    requires RestoreResult(d, ts, w) == Restored ==> i < |RestoreTrace(d, ts, w)| - 1
    requires RestoreTrace(d, ts, w)[i].baks.Keys <= bg
    ensures var st := RestoreTrace(d, ts, w)[i];
      Has(Swept(st, tg, bg), o) <==> st.img.None? || st.img == Some(o)
  {
    OriginalNeverLost(d, ts, w, o, i);
    var st := RestoreTrace(d, ts, w)[i];
    if st.img.None? {
      var n :| n in st.baks && st.baks[n] == o;
      assert n in Swept(st, tg, bg).baks;
    }
  }

  /** A crash while the decompressor has written anything but the original loses it: one disk, one
      restore, cut off there and swept. */
  lemma {:induction false} SweepMayLoseOriginal() returns (d: Disk, w: RestoreWorld)
    ensures d.img == Some("original") && RestoreResult(d, "t", w) == Restored && |RestoreTrace(d, "t", w)| > 3
    ensures Swept(RestoreTrace(d, "t", w)[2], {}, {w.now}) == d.(img := Some("part"))
    ensures !Has(Swept(RestoreTrace(d, "t", w)[2], {}, {w.now}), "original")
  {
    d := Disk(Some("original"), map[], map["t" := Zst("snapshot")], map[], {});
    w := RestoreWorld(NoRow, false, true, 5, true, "part", true, None, true, true, false, true, true, true);
    var st := RestoreTrace(d, "t", w)[2];
    assert st == Aside(d, w).(img := Some("part"));
    assert st.baks == map[5 := "original"] && st.baks - {5} == map[];
  }

  // --- take ----------------------------------------------------------------------------------

  datatype TakeWorld = TakeWorld(
    row: RowState,
    mkdirOk: bool, statOk: bool,
    zipOk: bool, syncOk: bool, renameOk: bool, finalStatOk: bool, metaOk: bool,
    removeOk: bool)

  datatype TakeOutcome = Taken | NoImage | TakeRunning | TakeStoreError | TakeFailed

  function TakeRefuses(d: Disk, w: TakeWorld): Option<TakeOutcome> {
    if d.img.None? then Some(NoImage)
    else if w.row == RowRunning then Some(TakeRunning)
    else if w.row == RowUnreadable then Some(TakeStoreError)
    else if !w.mkdirOk || !w.statOk then Some(TakeFailed)
    else None
  }

  function DropTmp(d: Disk, ts: string, w: TakeWorld): Disk {
    if w.removeOk then d.(tmps := d.tmps - {ts}) else d
  }

  /** Every state up to the point where pruning starts. */
  function TakeTrace(d: Disk, ts: string, w: TakeWorld): (tr: seq<Disk>)
    ensures tr != []
  {
    if TakeRefuses(d, w).Some? then [d] else
      var cut := d.(tmps := d.tmps[ts := Cut]);
      var full := d.(tmps := d.tmps[ts := Zst(d.img.value)]);
      if !w.zipOk then [d, cut, DropTmp(cut, ts, w)]
      else if !w.syncOk || !w.renameOk then [d, cut, full, DropTmp(full, ts, w)]
      else
        var named := d.(snaps := d.snaps[ts := Zst(d.img.value)], tmps := d.tmps - {ts});
        [d, cut, full, named] +
        if w.finalStatOk && w.metaOk then [named.(metas := named.metas + {ts})] else []
  }

  function TakeResult(d: Disk, w: TakeWorld): TakeOutcome {
    if TakeRefuses(d, w).Some? then TakeRefuses(d, w).value
    else if w.zipOk && w.syncOk && w.renameOk && w.finalStatOk then Taken else TakeFailed
  }

  /** There is an image, the row is neither running nor unreadable, and the first calls work. */
  predicate MayTake(d: Disk, w: TakeWorld) {
    d.img.Some? && w.row != RowRunning && w.row != RowUnreadable && w.mkdirOk && w.statOk
  }

  /** The new file gets its name. */
  predicate Names(d: Disk, w: TakeWorld) {
    MayTake(d, w) && w.zipOk && w.syncOk && w.renameOk
  }

  /** A take succeeds exactly if there is an image to take, its row allows it and every call it
      depends on works, and it says why it refuses. */
  lemma {:induction false} TakenIff(d: Disk, w: TakeWorld)
    ensures var r := TakeResult(d, w);
      && (r == Taken <==> Names(d, w) && w.finalStatOk)
      && (r == NoImage <==> d.img.None?)
      && (r == TakeRunning <==> d.img.Some? && w.row == RowRunning)
      && (r == TakeStoreError <==> d.img.Some? && w.row == RowUnreadable)
  {
  }

  /** What it leaves: the image and the backups as they were; one more snapshot, holding the image's
      bytes, exactly if it reached its rename; its sidecar exactly if it could write that too; a
      half-written file exactly if it could neither name nor remove it; and nothing at all, at any
      moment, if it never began. */
  lemma {:induction false} TakeLeaves(d: Disk, ts: string, w: TakeWorld)
    ensures TakeTrace(d, ts, w) == [d] <==> !MayTake(d, w)
    ensures var e := Last(TakeTrace(d, ts, w));
      && e.img == d.img && e.baks == d.baks
      && e.snaps == (if Names(d, w) then d.snaps[ts := Zst(d.img.value)] else d.snaps)
      && e.metas == (if Names(d, w) && w.finalStatOk && w.metaOk then d.metas + {ts} else d.metas)
      && (MayTake(d, w) ==>
            && e.tmps.Keys == d.tmps.Keys - {ts} + (if Names(d, w) || w.removeOk then {} else {ts})
            && forall t | t in e.tmps && t != ts :: e.tmps[t] == d.tmps[t])
  {
    var tr := TakeTrace(d, ts, w);
    assert MayTake(d, w) ==> |tr| > 1;
    assert d.tmps[ts := Cut] - {ts} == d.tmps - {ts};
    assert d.img.Some? ==> d.tmps[ts := Zst(d.img.value)] - {ts} == d.tmps - {ts};
  }

  // --- prune -----------------------------------------------------------------------------------

  function Unsnap(d: Disk, ts: string): Disk {
    d.(snaps := d.snaps - {ts})
  }

  function Unmeta(d: Disk, ts: string): Disk {
    d.(metas := d.metas - {ts})
  }

  /** What pruning observes: whether the directory can be read, the cutoff, and the snapshots and
      sidecars that cannot be removed. */
  datatype PruneWorld = PruneWorld(listOk: bool, cutoff: int, stuckSnaps: set<string>, stuckMetas: set<string>)

  /** An expired snapshot that cannot be removed does not keep its sidecar from going. */
  function WithoutSnap(d: Disk, ts: string, w: PruneWorld): Disk {
    if ts in w.stuckSnaps then d else Unsnap(d, ts)
  }

  function WithoutMeta(d: Disk, ts: string, w: PruneWorld): Disk {
    if ts in w.stuckMetas then d else Unmeta(d, ts)
  }

  /** The states of the deletion loop over the names after the newest. */
  function PruneTrace(d: Disk, rest: seq<string>, w: PruneWorld): (tr: seq<Disk>)
    ensures tr != [] && tr[0] == d
    decreases |rest|
  {
    if rest == [] then [d]
    else if Expired(rest[0], w.cutoff) then
      [d, WithoutSnap(d, rest[0], w)] + PruneTrace(PruneOne(d, rest[0], w), rest[1..], w)
    else PruneTrace(d, rest[1..], w)
  }

  function PruneOne(d: Disk, ts: string, w: PruneWorld): Disk {
    if Expired(ts, w.cutoff) then WithoutMeta(WithoutSnap(d, ts, w), ts, w) else d
  }

  lemma {:induction false} PruneStep(d: Disk, rest: seq<string>, w: PruneWorld)
    requires rest != []
    ensures Last(PruneTrace(d, rest, w)) == Last(PruneTrace(PruneOne(d, rest[0], w), rest[1..], w))
  {
  }

  /** The names of the snapshots, newest first. */
  ghost predicate Lists(tss: seq<string>, d: Disk) {
    Descending(tss) && forall ts :: ts in tss <==> ts in d.snaps
  }

  ghost predicate OnlyForgets(e: Disk, d: Disk) {
    && e.img == d.img && e.baks == d.baks && e.tmps == d.tmps && e.metas <= d.metas
    && e.snaps.Keys <= d.snaps.Keys && forall ts | ts in e.snaps :: e.snaps[ts] == d.snaps[ts]
  }

  lemma {:induction false} PruneForgets(d: Disk, rest: seq<string>, w: PruneWorld)
    ensures forall i | 0 <= i < |PruneTrace(d, rest, w)| :: OnlyForgets(PruneTrace(d, rest, w)[i], d)
    decreases |rest|
  {
    if rest != [] {
      var d' := PruneOne(d, rest[0], w);
      PruneForgets(d', rest[1..], w);
      if Expired(rest[0], w.cutoff) {
        var tr, tr' := PruneTrace(d, rest, w), PruneTrace(d', rest[1..], w);
        assert tr == [d, WithoutSnap(d, rest[0], w)] + tr';
        forall i | 0 <= i < |tr|
          ensures OnlyForgets(tr[i], d)
        {
          OneForgets(d, rest[0], w);
          if i >= 2 {
            ForgetsMore(tr'[i - 2], d', d);
          }
        }
      }
    }
  }

  lemma {:induction false} OneForgets(d: Disk, ts: string, w: PruneWorld)
    ensures OnlyForgets(d, d) && OnlyForgets(WithoutSnap(d, ts, w), d) && OnlyForgets(PruneOne(d, ts, w), d)
  {
  }

  lemma {:induction false} ForgetsMore(e: Disk, mid: Disk, d: Disk)
    requires OnlyForgets(e, mid) && OnlyForgets(mid, d)
    ensures OnlyForgets(e, d)
  {
  }

  lemma {:induction false} PrunedAt(d: Disk, rest: seq<string>, w: PruneWorld, ts: string)
    ensures var e := Last(PruneTrace(d, rest, w)); var due := ts in rest && Expired(ts, w.cutoff);
      && (ts in e.snaps <==> ts in d.snaps && !(due && ts !in w.stuckSnaps))
      && (ts in e.metas <==> ts in d.metas && !(due && ts !in w.stuckMetas))
    decreases |rest|
  {
    if rest != [] {
      PruneStep(d, rest, w);
      PrunedAt(PruneOne(d, rest[0], w), rest[1..], w, ts);
      assert ts in rest <==> ts == rest[0] || ts in rest[1..];
    }
  }

  lemma {:induction false} RestIsOlder(tss: seq<string>, all: set<string>, ts: string)
    requires tss != [] && Descending(tss) && forall t :: t in tss <==> t in all
    ensures ts in tss[1..] <==> ts in all && !IsNewest(ts, all)
  {
    FirstIsNewest(tss, all);
    assert ts in tss <==> ts == tss[0] || ts in tss[1..];
    if ts in tss[1..] {
      var i :| 0 <= i < |tss[1..]| && tss[1..][i] == ts;
      assert !IsNewest(tss[i + 1], all);
    }
  }

  /** What is left of the names `all` that pruning has listed. */
  ghost function Left(all: set<string>, w: PruneWorld): set<string> {
    Survivors(all, w.cutoff) + all * w.stuckSnaps
  }

  /** Pruning removes exactly the expired snapshots that are not the newest, as far as they can be
      removed, and their sidecars, and touches no image, backup or surviving snapshot; even cut off
      half-way it only forgets. */
  lemma {:induction false} PruneExact(d: Disk, tss: seq<string>, w: PruneWorld)
    requires tss != [] && Lists(tss, d)
    ensures forall i | 0 <= i < |PruneTrace(d, tss[1..], w)| :: OnlyForgets(PruneTrace(d, tss[1..], w)[i], d)
    ensures var e := Last(PruneTrace(d, tss[1..], w));
      && e.snaps.Keys == Left(d.snaps.Keys, w)
      && e.metas == d.metas - (d.snaps.Keys - Survivors(d.snaps.Keys, w.cutoff) - w.stuckMetas)
  {
    PruneForgets(d, tss[1..], w);
    var e, all := Last(PruneTrace(d, tss[1..], w)), d.snaps.Keys;
    forall ts
      ensures ts in e.snaps <==> ts in Left(all, w)
      ensures ts in e.metas <==> ts in d.metas && (ts !in all || ts in Survivors(all, w.cutoff) || ts in w.stuckMetas)
    {
      PrunedAt(d, tss[1..], w, ts);
      RestIsOlder(tss, all, ts);
    }
  }

  // --- runs --------------------------------------------------------------------------------------

  /** `crash` is the index of the state the operation was cut off in; beyond its last state it
      ran to the end. `WriteImg` is the running sandbox. */
  datatype Op =
    | WriteImg(bytes: Blob)
    | Take(ts: string, tw: TakeWorld, crash: nat)
    | Prune(tss: seq<string>, pw: PruneWorld, crash: nat)
    | Restore(rts: string, rw: RestoreWorld, crash: nat)
    | Sweep(tmpsGone: set<string>, baksGone: set<int>)

  /** The state an operation leaves: the one it was cut off in, or the last. */
  function IndexAt(tr: seq<Disk>, crash: nat): (i: nat)
    requires tr != []
    ensures i < |tr|
  {
    if crash < |tr| then crash else |tr| - 1
  }

  function CutAt(tr: seq<Disk>, crash: nat): Disk
    requires tr != []
  {
    tr[IndexAt(tr, crash)]
  }

  function Apply(d: Disk, op: Op): Disk {
    match op
    case WriteImg(b) => d.(img := Some(b))
    case Take(ts, w, crash) => CutAt(TakeTrace(d, ts, w), crash)
    case Prune(tss, w, crash) => CutAt(PruneTrace(d, tss, w), crash)
    case Restore(ts, w, crash) => CutAt(RestoreTrace(d, ts, w), crash)
    case Sweep(tg, bg) => Swept(d, tg, bg)
  }

  function Run(d: Disk, ops: seq<Op>): Disk
    decreases |ops|
  {
    if ops == [] then d else Run(Apply(d, ops[0]), ops[1..])
  }

  ghost predicate SnapKept(e: Disk, d: Disk, ts: string) {
    ts in e.snaps ==> ts in d.snaps && e.snaps[ts] == d.snaps[ts]
  }

  lemma {:induction false} TakeKeepsOthers(d: Disk, name: string, w: TakeWorld, ts: string, i: nat)
    requires name != ts && i < |TakeTrace(d, name, w)|
    ensures SnapKept(TakeTrace(d, name, w)[i], d, ts)
  {
  }

  lemma {:induction false} RestoreKeepsSnaps(d: Disk, name: string, w: RestoreWorld, i: nat)
    requires i < |RestoreTrace(d, name, w)|
    ensures RestoreTrace(d, name, w)[i].snaps == d.snaps
  {
  }

  /** No operation but a take of that name changes what a snapshot holds. */
  lemma {:induction false} ApplyKeepsSnapshot(d: Disk, op: Op, ts: string)
    requires !(op.Take? && op.ts == ts)
    ensures SnapKept(Apply(d, op), d, ts)
  {
    match op
    case WriteImg(_) =>
    case Take(name, w, crash) =>
      TakeKeepsOthers(d, name, w, ts, IndexAt(TakeTrace(d, name, w), crash));
    case Prune(tss, w, crash) =>
      PruneForgets(d, tss, w);
      assert OnlyForgets(PruneTrace(d, tss, w)[IndexAt(PruneTrace(d, tss, w), crash)], d);
    case Restore(name, w, crash) =>
      RestoreKeepsSnaps(d, name, w, IndexAt(RestoreTrace(d, name, w), crash));
    case Sweep(_, _) =>
  }

  ghost predicate AllWhole(d: Disk) {
    forall ts | ts in d.snaps :: d.snaps[ts].Zst?
  }

  /** A file with a finished snapshot's name is never a half-written one, wherever the machine
      was cut off. */
  lemma {:induction false} SnapshotsAreWhole(d: Disk, ops: seq<Op>)
    requires AllWhole(d)
    ensures AllWhole(Run(d, ops))
    decreases |ops|
  {
    if ops != [] {
      var op := ops[0];
      forall ts | ts in Apply(d, op).snaps
        ensures Apply(d, op).snaps[ts].Zst?
      {
        if !(op.Take? && op.ts == ts) {
          ApplyKeepsSnapshot(d, op, ts);
        }
      }
      SnapshotsAreWhole(Apply(d, op), ops[1..]);
    }
  }

  // --- where a snapshot's bytes come from ---------------------------------------------------------

  /** The operation is a take of this name that got as far as its rename, whatever happened to it
      afterwards. */
  predicate Renames(d: Disk, op: Op, ts: string) {
    op.Take? && op.ts == ts && op.crash >= 3 && Names(d, op.tw)
  }

  lemma {:induction false} TakeNames(d: Disk, ts: string, w: TakeWorld, crash: nat)
    ensures var e := Apply(d, Take(ts, w, crash));
      if Renames(d, Take(ts, w, crash), ts) then ts in e.snaps && d.img.Some? && e.snaps[ts] == Zst(d.img.value)
      else SnapKept(e, d, ts)
  {
  }

  lemma {:induction false} RunSnoc(d: Disk, ops: seq<Op>, op: Op)
    ensures Run(d, ops + [op]) == Apply(Run(d, ops), op)
    decreases |ops|
  {
    if ops == [] {
      assert ops + [op] == [op] && [op][1..] == [];
    } else {
      assert (ops + [op])[1..] == ops[1..] + [op];
      RunSnoc(Apply(d, ops[0]), ops[1..], op);
    }
  }

  /** After operation `k` no take of this name has reached its rename. */
  ghost predicate NoneAfter(d: Disk, ops: seq<Op>, ts: string, k: int) {
    forall j :: 0 <= j < |ops| && k < j ==> !Renames(Run(d, ops[..j]), ops[j], ts)
  }

  /** Over any history, a snapshot that is there holds the bytes that were live at the last take of
      its name that reached its rename; if there was none, it was there from the start, with the
      same bytes. */
  lemma {:induction false} SnapshotOrigin(d: Disk, ops: seq<Op>, ts: string) returns (k: int)
    requires ts in Run(d, ops).snaps
    ensures -1 <= k < |ops| && NoneAfter(d, ops, ts, k)
    ensures k >= 0 ==> Renames(Run(d, ops[..k]), ops[k], ts) && Run(d, ops[..k]).img.Some?
    ensures k >= 0 ==> Run(d, ops).snaps[ts] == Zst(Run(d, ops[..k]).img.value)
    ensures k == -1 ==> ts in d.snaps && Run(d, ops).snaps[ts] == d.snaps[ts]
    decreases |ops|
  {
    k := -1;
    if ops != [] {
      var n := |ops| - 1;
      var front, op := ops[..n], ops[n];
      assert ops == front + [op];
      RunSnoc(d, front, op);
      var e := Run(d, front);
      if op.Take? && op.ts == ts {
        TakeNames(e, ts, op.tw, op.crash);
      } else {
        ApplyKeepsSnapshot(e, op, ts);
      }
      if Renames(e, op, ts) {
        k := n;
      } else {
        k := SnapshotOrigin(d, front, ts);
        assert forall j :: 0 <= j < n ==> front[..j] == ops[..j] && front[j] == ops[j];
      }
    }
  }

  /** So over any history of takes, failed and cut-off ones included, restores, prunes, writes and
      sweeps, a restore that succeeds makes live, byte for byte, the image that was live at the last
      take of that name that reached its rename, or the bytes the snapshot had from the start. */
  lemma {:induction false} RestoresLastTake(d: Disk, ops: seq<Op>, ts: string, rw: RestoreWorld) returns (k: int)
    requires RestoreResult(Run(d, ops), ts, rw) == Restored
    ensures -1 <= k < |ops| && NoneAfter(d, ops, ts, k)
    ensures k >= 0 ==> Renames(Run(d, ops[..k]), ops[k], ts)
    ensures var live := Last(RestoreTrace(Run(d, ops), ts, rw)).img;
      if k >= 0 then live == Run(d, ops[..k]).img && live.Some?
      else ts in d.snaps && d.snaps[ts].Zst? && live == Some(d.snaps[ts].bytes)
  {
    RestoredIsSnapshot(Run(d, ops), ts, rw);
    k := SnapshotOrigin(d, ops, ts);
  }
}
