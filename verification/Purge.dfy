/** Purging one sandbox, and every sandbox of a user or project
    (control-plane/internal/api/external_purge.go). */
module Purge {
  import opened Common
  import opened Rows

  /** What purging touches on the host: containers, loopback mounts, and the bytes each
      workspace and snapshot directory holds. */
  datatype Host = Host(db: Db, containers: set<string>, mounted: set<string>, images: map<string, nat>,
                       snapshots: map<string, nat>)

  /** What goes wrong during one purge. A directory removal that fails leaves some bytes; the
      request's context may end while the rows are being deleted. */
  datatype Faults = Faults(lookup: bool, inspect: bool, remove: bool, release: bool, image: Option<nat>,
                           snaps: Option<nat>, failAt: nat, patience: Patience)

  datatype Entry = Entry(action: string, target: string, user: string)

  function SizeOf(m: map<string, nat>, id: string): nat {
    if id in m then m[id] else 0
  }

  function Usage(h: Host, id: string, withSnapshots: bool): nat {
    SizeOf(h.images, id) + if withSnapshots then SizeOf(h.snapshots, id) else 0
  }

  /** The bytes of its workspace directory and, where there are snapshots, of theirs. */
  lemma {:induction false} UsageIs(h: Host, id: string)
    ensures id in h.images && id in h.snapshots ==> Usage(h, id, true) == h.images[id] + h.snapshots[id]
    ensures id in h.images && id !in h.snapshots ==> Usage(h, id, true) == h.images[id]
    ensures id !in h.images && id in h.snapshots ==> Usage(h, id, true) == h.snapshots[id]
    ensures id !in h.images && id !in h.snapshots ==> Usage(h, id, true) == 0
    ensures Usage(h, id, false) == if id in h.images then h.images[id] else 0
  {
  }

  /** Nothing of the sandbox is left. */
  ghost predicate Gone(h: Host, id: string, withSnapshots: bool) {
    && id !in h.containers && id !in h.mounted && id !in h.images
    && (withSnapshots ==> id !in h.snapshots)
    && id !in h.db.sandboxes && id !in h.db.owners
  }

  ghost predicate SameAt<T>(m: map<string, T>, m': map<string, T>, id: string) {
    (id in m <==> id in m') && (id in m ==> m[id] == m'[id])
  }

  /** Everything about one sandbox is the same on both hosts. */
  ghost predicate Untouched(h: Host, h': Host, id: string) {
    && (id in h.containers <==> id in h'.containers)
    && (id in h.mounted <==> id in h'.mounted)
    && SameAt(h.images, h'.images, id) && SameAt(h.snapshots, h'.snapshots, id)
    && SameAt(h.db.sandboxes, h'.db.sandboxes, id) && SameAt(h.db.owners, h'.db.owners, id)
  }

  /** No step before the rows meets a fault; a step with nothing to do cannot fail. */
  predicate TornDown(h: Host, id: string, f: Faults, withSnapshots: bool) {
    && !f.inspect && (id in h.containers ==> !f.remove) && !f.release
    && (id in h.images ==> f.image.None?)
    && (withSnapshots && id in h.snapshots ==> f.snaps.None?)
  }

  /** No step of the purge meets a fault, and the request waits for the last one. */
  predicate Clean(h: Host, id: string, f: Faults, withSnapshots: bool) {
    TornDown(h, id, f, withSnapshots) && f.failAt > 3 && f.patience == Stays
  }

  /** The request left while its rows were being deleted, and they were. */
  predicate LeftTooLate(h: Host, id: string, f: Faults, withSnapshots: bool) {
    TornDown(h, id, f, withSnapshots) && f.failAt > 3 && f.patience == LeavesApplied
  }

  /** One purge as the host sees it: all of the sandbox is gone, or its rows are still there;
      and no other sandbox is touched either way. */
  ghost predicate PurgedOne(h: Host, h': Host, id: string, withSnapshots: bool, gone: bool) {
    && (gone ==> Gone(h', id, withSnapshots))
    && (!gone ==> h'.db == h.db)
    && h'.db.tasks == h.db.tasks
    && forall other :: other != id ==> Untouched(h, h', other)
  }

  datatype Scope = User | Project

  predicate Matches(o: Owner, scope: Scope, value: string) {
    match scope
    case User => o.user == value
    case Project => o.project == Some(value)
  }

  function Owned(db: Db, scope: Scope, value: string): set<string> {
    set id | id in db.owners && Matches(db.owners[id], scope, value)
  }

  ghost predicate NoRepeats(ids: seq<string>) {
    forall i, j :: 0 <= i < j < |ids| ==> ids[i] != ids[j]
  }

  function Summary(scope: Scope, value: string): Entry {
    if scope == Project then Entry("external_project.purge", value, "") else Entry("external_user.purge", value, value)
  }

  /** A listing of matching bindings, in whatever order the query returns them. The store does not
      notice when reading the rows breaks off, so it may be any part of them. */
  ghost predicate Lists(ids: seq<string>, db: Db, scope: Scope, value: string) {
    NoRepeats(ids) && forall id :: id in ids ==> id in Owned(db, scope, value)
  }

  /** The listing has every matching binding. */
  ghost predicate Whole(ids: seq<string>, db: Db, scope: Scope, value: string) {
    Lists(ids, db, scope, value) && forall id :: id in Owned(db, scope, value) ==> id in ids
  }

  function TotalUsage(h: Host, ids: seq<string>, withSnapshots: bool): nat {
    if ids == [] then 0
    else TotalUsage(h, ids[..|ids| - 1], withSnapshots) + Usage(h, ids[|ids| - 1], withSnapshots)
  }

  /** A purge of a list that got through its first `p` ids: they are gone, the rows of the
      others are there, and only the id it failed on may have lost files. */
  ghost predicate PurgedPrefix(h: Host, h': Host, ids: seq<string>, p: nat, withSnapshots: bool) {
    && p <= |ids|
    && (forall i :: 0 <= i < p ==> Gone(h', ids[i], withSnapshots))
    && (forall id :: id !in ids[..p] ==>
          SameAt(h.db.sandboxes, h'.db.sandboxes, id) && SameAt(h.db.owners, h'.db.owners, id))
    && (forall id :: id !in ids[..p] && (p < |ids| ==> id != ids[p]) ==> Untouched(h, h', id))
  }

  class Server {
    const tables: Tables
    const withSnapshots: bool
    var containers: set<string>
    var mounted: set<string>
    var images: map<string, nat>
    var snapshots: map<string, nat>
    var audit: seq<Entry>

    ghost function Abs(): Host
      reads this, tables
    {
      Host(tables.Abs(), containers, mounted, images, snapshots)
    }

    constructor (t: Tables, containers: set<string>, mounted: set<string>, images: map<string, nat>,
                 snapshots: map<string, nat>, withSnapshots: bool)
      ensures tables == t && this.withSnapshots == withSnapshots && audit == []
      ensures this.containers == containers && this.mounted == mounted
      ensures this.images == images && this.snapshots == snapshots
    {
      tables, this.withSnapshots, audit := t, withSnapshots, [];
      this.containers, this.mounted, this.images, this.snapshots := containers, mounted, images, snapshots;
    }

    /** Stop and remove the container, unmount the loopback. */
    method Detach(id: string, f: Faults) returns (ok: bool)
      modifies this`containers, this`mounted
      ensures ok <==> !f.inspect && (id in old(containers) ==> !f.remove) && !f.release
      ensures containers == old(containers) || containers == old(containers) - {id}
      ensures mounted == old(mounted) || mounted == old(mounted) - {id}
      ensures ok ==> id !in containers && id !in mounted
    {
      if f.inspect {
        return false;
      }
      if id in containers {
        if f.remove {
          return false;
        }
        containers := containers - {id};
      }
      if f.release {
        return false;
      }
      mounted := mounted - {id};
      return true;
    }

    /** Delete the workspace directory and the snapshots. */
    method DeleteFiles(id: string, f: Faults) returns (ok: bool, freed: nat)
      modifies this`images, this`snapshots
      ensures ok <==> (id in old(images) ==> f.image.None?)
                      && (withSnapshots && id in old(snapshots) ==> f.snaps.None?)
      ensures ok ==> id !in images && (withSnapshots ==> id !in snapshots)
      ensures ok ==> freed == SizeOf(old(images), id) + (if withSnapshots then SizeOf(old(snapshots), id) else 0)
      ensures forall other :: other != id ==>
        SameAt(old(images), images, other) && SameAt(old(snapshots), snapshots, other)
    {
      freed := SizeOf(images, id);
      if id in images {
        if f.image.Some? {
          images := images[id := f.image.value];
          return false, freed;
        }
        images := images - {id};
      }
      if withSnapshots {
        freed := freed + SizeOf(snapshots, id);
        if id in snapshots {
          if f.snaps.Some? {
            snapshots := snapshots[id := f.snaps.value];
            return false, freed;
          }
          snapshots := snapshots - {id};
        }
      }
      return true, freed;
    }

    /** Container, mount, workspace directory and snapshots, in that order; a failure leaves the
        rows alone. */
    method TearDown(id: string, f: Faults) returns (ok: bool, freed: nat)
      modifies this
      ensures audit == old(audit)
      ensures ok <==> old(TornDown(Abs(), id, f, withSnapshots))
      ensures ok ==> freed == old(Usage(Abs(), id, withSnapshots))
      ensures ok ==> id !in containers && id !in mounted && id !in images && (withSnapshots ==> id !in snapshots)
      ensures forall other :: other != id ==> Untouched(old(Abs()), Abs(), other)
    {
      freed := 0;
      ok := Detach(id, f);
      if ok {
        ok, freed := DeleteFiles(id, f);
      }
    }

    /** The rows go last, so a purge that fails can be found and repeated, with one exception: a
        request that leaves while the rows are being deleted reports a failure, and they may be
        gone. */
    method PurgeOne(id: string, f: Faults) returns (ok: bool, freed: nat, user: string)
      modifies this, tables
      ensures audit == old(audit)
      ensures ok <==> old(Clean(Abs(), id, f, withSnapshots))
      ensures PurgedOne(old(Abs()), Abs(), id, withSnapshots, ok || old(LeftTooLate(Abs(), id, f, withSnapshots)))
      ensures ok ==> freed == old(Usage(Abs(), id, withSnapshots))
      ensures user == if !f.lookup && id in old(tables.owners) then old(tables.owners)[id].user else ""
    {
      user := "";
      if !f.lookup && id in tables.owners {
        user := tables.owners[id].user;
      }
      ghost var h := Abs();
      ok, freed := TearDown(id, f);
      if !ok {
        return;
      }
      ghost var mid := Abs();
      var reply := tables.Submit(PurgeSandbox(id), f.failAt, f.patience);
      ok := reply == Replied(Ok);
      forall other | other != id
        ensures Untouched(h, Abs(), other)
      {
        assert Untouched(h, mid, other);
      }
    }

    /** Purge the listed sandboxes one after the other and stop at the first failure. Exactly a
        prefix of the list is gone: what was counted, and one more if the request left too late.
        Each counted sandbox is audited with the user it belonged to, and the summary is written
        only when all of them are. */
    method PurgeListed(scope: Scope, value: string, ids: seq<string>, faults: seq<Faults>)
      returns (purged: nat, totalFreed: nat)
      requires Lists(ids, tables.Abs(), scope, value) && |faults| == |ids|
      modifies this, tables
      ensures purged <= |ids|
      ensures PurgedPrefix(old(Abs()), Abs(), ids, HowMany(old(Abs()), ids, faults, purged, withSnapshots), withSnapshots)
      ensures purged < |ids| ==> !Clean(old(Abs()), ids[purged], faults[purged], withSnapshots)
      ensures exists log ::
        && Accounted(old(Abs()), ids, faults, purged, totalFreed, log, withSnapshots)
        && audit == old(audit) + log +
           if purged < |ids| then [] else [Summary(scope, value)]
    {
      ghost var h, before, log := Abs(), audit, [];
      purged, totalFreed := 0, 0;
      while purged < |ids|
        invariant GotTo(h, Abs(), ids, faults, purged, totalFreed, log, withSnapshots)
        invariant audit == before + log
      {
        var id := ids[purged];
        ghost var mid := Abs();
        var ok, freed, user := PurgeOne(id, faults[purged]);
        if !ok {
          StopsHere(h, mid, Abs(), ids, faults, purged, totalFreed, log, withSnapshots);
          return;
        }
        audit := audit + [Entry("sandbox.purge", id, user)];
        GoesOn(h, mid, Abs(), ids, faults, purged, totalFreed, log, withSnapshots, freed, audit[|audit| - 1]);
        log := log + [audit[|audit| - 1]];
        totalFreed := totalFreed + freed;
        purged := purged + 1;
      }
      audit := audit + [Summary(scope, value)];
    }

    /** A request without a value, or whose listing cannot be read, changes nothing. `listing` is
        what the store answers. Otherwise exactly the purged part of the listing no longer matches.
        So a request that reports success leaves no matching binding exactly if its listing was
        whole; one that reports a failure leaves some, unless it failed at the last of a whole
        listing by leaving too late. */
    method PurgeScope(scope: Scope, value: string, listing: Option<seq<string>>, faults: seq<Faults>)
      returns (status: Status, purged: nat)
      requires listing.Some? ==> Lists(listing.value, tables.Abs(), scope, value) && |faults| == |listing.value|
      modifies this, tables
      ensures status == BadRequest <==> value == ""
      ensures status == LookupFailed <==> value != "" && listing.None?
      ensures status == BadRequest || status == LookupFailed ==> Abs() == old(Abs()) && audit == old(audit) && purged == 0
      ensures status == Done || status == PurgeFailed ==>
        && purged <= |listing.value|
        && var gone := HowMany(old(Abs()), listing.value, faults, purged, withSnapshots);
           && PurgedPrefix(old(Abs()), Abs(), listing.value, gone, withSnapshots)
           && Owned(tables.Abs(), scope, value)
              == old(Owned(tables.Abs(), scope, value)) - Members(listing.value[..gone])
      ensures status == Done || status == PurgeFailed ==>
        forall i :: 0 <= i < purged ==> Clean(old(Abs()), listing.value[i], faults[i], withSnapshots)
      ensures status == PurgeFailed ==>
        purged < |listing.value| && !Clean(old(Abs()), listing.value[purged], faults[purged], withSnapshots)
      ensures status == PurgeFailed ==> |audit| == |old(audit)| + purged
      ensures status == Done ==>
        && purged == |listing.value| && |audit| == |old(audit)| + purged + 1
        && audit[|audit| - 1] == (if scope == User then Entry("external_user.purge", value, value)
                                  else Entry("external_project.purge", value, ""))
      ensures status == Done ==>
        (Owned(tables.Abs(), scope, value) == {} <==> old(Whole(listing.value, tables.Abs(), scope, value)))
      ensures status == PurgeFailed ==>
        (Owned(tables.Abs(), scope, value) == {} <==>
          && old(Whole(listing.value, tables.Abs(), scope, value))
          && purged == |listing.value| - 1
          && LeftTooLate(old(Abs()), listing.value[purged], faults[purged], withSnapshots))
    {
      if value == "" {
        return BadRequest, 0;
      }
      if listing.None? {
        return LookupFailed, 0;
      }
      ghost var h := Abs();
      var ids := listing.value;
      var totalFreed;
      purged, totalFreed := PurgeListed(scope, value, ids, faults);
      ghost var a := Attempt(ids, HowMany(h, ids, faults, purged, withSnapshots));
      OwnedShrinks(h, Abs(), a, scope, value, withSnapshots);
      NothingOwnedIff(h, Abs(), a, scope, value, withSnapshots);
      status := if purged < |ids| then PurgeFailed else Done;
    }
  }

  datatype Status = BadRequest | LookupFailed | PurgeFailed | Done

  /** How many sandboxes a run that counted `p` has purged. */
  ghost function HowMany(h: Host, ids: seq<string>, faults: seq<Faults>, p: nat, withSnapshots: bool): (n: nat)
    requires p <= |ids| == |faults|
    ensures p <= n <= p + 1 && n <= |ids|
  {
    if p < |ids| && LeftTooLate(h, ids[p], faults[p], withSnapshots) then p + 1 else p
  }

  /** The audit entry of one purge names the user the binding had before the whole run. */
  ghost predicate Audited(h: Host, e: Entry, id: string, f: Faults) {
    e == Entry("sandbox.purge", id, if !f.lookup && id in h.db.owners then h.db.owners[id].user else "")
  }

  /** The first `p` purges met no fault, freed what the disk held before the run, and each has
      its own audit entry, in order. */
  ghost predicate Accounted(h: Host, ids: seq<string>, faults: seq<Faults>, p: nat, freed: nat, log: seq<Entry>,
                            withSnapshots: bool) {
    && p <= |ids| == |faults| && |log| == p
    && freed == TotalUsage(h, ids[..p], withSnapshots)
    && (forall i :: 0 <= i < p ==> Clean(h, ids[i], faults[i], withSnapshots))
    && (forall i :: 0 <= i < p ==> Audited(h, log[i], ids[i], faults[i]))
  }

  /** Where the loop stands after `p` purges. */
  ghost predicate GotTo(h: Host, cur: Host, ids: seq<string>, faults: seq<Faults>, p: nat, freed: nat, log: seq<Entry>,
                        withSnapshots: bool) {
    && Accounted(h, ids, faults, p, freed, log, withSnapshots)
    && PurgedPrefix(h, cur, ids, p, withSnapshots)
    && forall id :: id !in ids[..p] ==> Untouched(h, cur, id)
  }

  lemma {:induction false} StopsHere(h: Host, mid: Host, h': Host, ids: seq<string>, faults: seq<Faults>, p: nat,
                                     freed: nat, log: seq<Entry>, withSnapshots: bool)
    requires NoRepeats(ids) && p < |ids| && GotTo(h, mid, ids, faults, p, freed, log, withSnapshots)
    requires PurgedOne(mid, h', ids[p], withSnapshots, LeftTooLate(mid, ids[p], faults[p], withSnapshots))
    requires !Clean(mid, ids[p], faults[p], withSnapshots)
    ensures PurgedPrefix(h, h', ids, HowMany(h, ids, faults, p, withSnapshots), withSnapshots)
    ensures !Clean(h, ids[p], faults[p], withSnapshots)
  {
    NotYet(ids, p);
    SameClean(h, mid, ids[p], faults[p], withSnapshots);
    if LeftTooLate(mid, ids[p], faults[p], withSnapshots) {
      OneMore(h, mid, h', ids, p, withSnapshots);
    } else {
      FailedHere(h, mid, h', ids, p, withSnapshots);
    }
  }

  lemma {:induction false} GoesOn(h: Host, mid: Host, h': Host, ids: seq<string>, faults: seq<Faults>, p: nat,
                                  freed: nat, log: seq<Entry>, withSnapshots: bool, more: nat, e: Entry)
    requires NoRepeats(ids) && p < |ids| && GotTo(h, mid, ids, faults, p, freed, log, withSnapshots)
    requires PurgedOne(mid, h', ids[p], withSnapshots, true)
    requires Clean(mid, ids[p], faults[p], withSnapshots) && Audited(mid, e, ids[p], faults[p])
    requires more == Usage(mid, ids[p], withSnapshots)
    ensures GotTo(h, h', ids, faults, p + 1, freed + more, log + [e], withSnapshots)
  {
    NotYet(ids, p);
    SameClean(h, mid, ids[p], faults[p], withSnapshots);
    OneMore(h, mid, h', ids, p, withSnapshots);
    OneMoreAccounted(h, ids, faults, p, freed, log, withSnapshots, e);
  }

  lemma {:induction false} OneMoreAccounted(h: Host, ids: seq<string>, faults: seq<Faults>, p: nat, freed: nat,
                                            log: seq<Entry>, withSnapshots: bool, e: Entry)
    requires Accounted(h, ids, faults, p, freed, log, withSnapshots) && p < |ids|
    requires Clean(h, ids[p], faults[p], withSnapshots) && Audited(h, e, ids[p], faults[p])
    ensures Accounted(h, ids, faults, p + 1, freed + Usage(h, ids[p], withSnapshots), log + [e], withSnapshots)
  {
    assert ids[..p + 1][..p] == ids[..p];
  }

  lemma {:induction false} SameClean(h: Host, mid: Host, id: string, f: Faults, withSnapshots: bool)
    requires Untouched(h, mid, id)
    ensures Clean(h, id, f, withSnapshots) == Clean(mid, id, f, withSnapshots)
    ensures LeftTooLate(h, id, f, withSnapshots) == LeftTooLate(mid, id, f, withSnapshots)
    ensures Usage(h, id, withSnapshots) == Usage(mid, id, withSnapshots)
  {
  }

  lemma {:induction false} NotYet(ids: seq<string>, p: nat)
    requires NoRepeats(ids) && p < |ids|
    ensures ids[p] !in ids[..p]
  {
  }

  lemma {:induction false} FailedHere(h: Host, mid: Host, h': Host, ids: seq<string>, p: nat, withSnapshots: bool)
    requires p < |ids| && PurgedPrefix(h, mid, ids, p, withSnapshots) && NoRepeats(ids)
    requires forall id :: id !in ids[..p] ==> Untouched(h, mid, id)
    requires PurgedOne(mid, h', ids[p], withSnapshots, false)
    ensures PurgedPrefix(h, h', ids, p, withSnapshots)
  {
    forall i | 0 <= i < p
      ensures Gone(h', ids[i], withSnapshots)
    {
      assert Untouched(mid, h', ids[i]);
    }
    forall id | id !in ids[..p] && id != ids[p]
      ensures Untouched(h, h', id)
    {
      assert Untouched(mid, h', id);
    }
  }

  lemma {:induction false} OneMore(h: Host, mid: Host, h': Host, ids: seq<string>, p: nat, withSnapshots: bool)
    requires p < |ids| && PurgedPrefix(h, mid, ids, p, withSnapshots) && NoRepeats(ids)
    requires forall id :: id !in ids[..p] ==> Untouched(h, mid, id)
    requires PurgedOne(mid, h', ids[p], withSnapshots, true)
    ensures PurgedPrefix(h, h', ids, p + 1, withSnapshots)
    ensures forall id :: id !in ids[..p + 1] ==> Untouched(h, h', id)
  {
    var more := ids[..p + 1];
    assert more == ids[..p] + [ids[p]];
    forall i | 0 <= i < p + 1
      ensures Gone(h', ids[i], withSnapshots)
    {
      if i < p {
        assert Untouched(mid, h', ids[i]);
      }
    }
    forall id | id !in more
      ensures Untouched(h, h', id)
    {
      assert id !in ids[..p] && id != ids[p];
      assert Untouched(mid, h', id);
    }
  }

  // --- retrying ----------------------------------------------------------------------------

  /** One request for the scope: the listing it worked from and how many of it are gone. */
  datatype Attempt = Attempt(ids: seq<string>, purged: nat)

  ghost predicate AttemptOk(h: Host, h': Host, a: Attempt, scope: Scope, value: string, withSnapshots: bool) {
    Lists(a.ids, h.db, scope, value) && PurgedPrefix(h, h', a.ids, a.purged, withSnapshots)
  }

  function Members(ids: seq<string>): set<string> {
    set id | id in ids
  }

  /** Exactly the purged part of the listing no longer matches, whatever the request reported. */
  lemma {:induction false} OwnedShrinks(h: Host, h': Host, a: Attempt, scope: Scope, value: string, withSnapshots: bool)
    requires AttemptOk(h, h', a, scope, value, withSnapshots)
    ensures Owned(h'.db, scope, value) == Owned(h.db, scope, value) - Members(a.ids[..a.purged])
  {
    var done := a.ids[..a.purged];
    forall id
      ensures id in Owned(h'.db, scope, value) <==> id in Owned(h.db, scope, value) && id !in done
    {
      if id in done {
        var i :| 0 <= i < a.purged && a.ids[i] == id;
        assert Gone(h', a.ids[i], withSnapshots);
      } else {
        assert SameAt(h.db.owners, h'.db.owners, id);
      }
    }
  }

  /** The part of the listing it did not purge still matches, and is all that does exactly if the
      listing was whole. */
  lemma {:induction false} RestIsListed(h: Host, h': Host, a: Attempt, scope: Scope, value: string, withSnapshots: bool)
    requires AttemptOk(h, h', a, scope, value, withSnapshots)
    ensures Lists(a.ids[a.purged..], h'.db, scope, value)
    ensures Whole(a.ids[a.purged..], h'.db, scope, value) <==> Whole(a.ids, h.db, scope, value)
  {
    var done, rest := a.ids[..a.purged], a.ids[a.purged..];
    OwnedShrinks(h, h', a, scope, value, withSnapshots);
    assert a.ids == done + rest;
    assert forall j :: 0 <= j < |rest| ==> rest[j] == a.ids[a.purged + j];
    assert forall id :: id in a.ids <==> id in done || id in rest;
    assert forall id :: id in done ==> id !in rest;
  }

  lemma {:induction false} NothingOwnedIff(h: Host, h': Host, a: Attempt, scope: Scope, value: string,
                                           withSnapshots: bool)
    requires AttemptOk(h, h', a, scope, value, withSnapshots)
    ensures Owned(h'.db, scope, value) == {} <==> a.purged == |a.ids| && Whole(a.ids, h.db, scope, value)
  {
    RestIsListed(h, h', a, scope, value, withSnapshots);
    var rest := a.ids[a.purged..];
    if rest != [] {
      assert rest[0] in Owned(h'.db, scope, value);
    }
  }

  /** However many requests fail on the way, and however short their listings were, once one of
      them has purged the whole of a whole listing, reported as a success or not, nothing is left of
      any sandbox that matched at first, and no binding matches any more. */
  lemma {:induction false} RetriesFinish(hosts: seq<Host>, attempts: seq<Attempt>, scope: Scope, value: string,
                                         withSnapshots: bool, id: string)
    requires |attempts| > 0 && |hosts| == |attempts| + 1
    requires forall i :: 0 <= i < |attempts| ==>
      AttemptOk(hosts[i], hosts[i + 1], attempts[i], scope, value, withSnapshots)
    requires var last := attempts[|attempts| - 1];
      last.purged == |last.ids| && Whole(last.ids, hosts[|attempts| - 1].db, scope, value)
    requires id in Owned(hosts[0].db, scope, value)
    ensures Gone(hosts[|attempts|], id, withSnapshots)
    ensures Owned(hosts[|attempts|].db, scope, value) == {}
    decreases |attempts|
  {
    var a := attempts[0];
    assert AttemptOk(hosts[0], hosts[1], a, scope, value, withSnapshots);
    if |attempts| == 1 {
      NothingOwnedIff(hosts[0], hosts[1], a, scope, value, withSnapshots);
      var i :| 0 <= i < |a.ids| && a.ids[i] == id;
      assert Gone(hosts[1], a.ids[i], withSnapshots);
    } else {
      var hs, as' := hosts[1..], attempts[1..];
      forall i | 0 <= i < |as'|
        ensures AttemptOk(hs[i], hs[i + 1], as'[i], scope, value, withSnapshots)
      {
        assert as'[i] == attempts[i + 1];
      }
      if id in Owned(hosts[1].db, scope, value) {
        RetriesFinish(hs, as', scope, value, withSnapshots, id);
      } else {
        PurgedStaysGone(hosts[0], hosts[1], a, scope, value, withSnapshots, id);
        StaysGone(hs, as', scope, value, withSnapshots, id);
      }
    }
  }

  lemma {:induction false} PurgedStaysGone(h: Host, h': Host, a: Attempt, scope: Scope, value: string,
                                           withSnapshots: bool, id: string)
    requires AttemptOk(h, h', a, scope, value, withSnapshots)
    requires id in Owned(h.db, scope, value) && id !in Owned(h'.db, scope, value)
    ensures Gone(h', id, withSnapshots)
  {
    assert id !in a.ids[..a.purged] ==> SameAt(h.db.owners, h'.db.owners, id);
    var i :| 0 <= i < a.purged && a.ids[i] == id;
  }

  lemma {:induction false} StaysGone(hosts: seq<Host>, attempts: seq<Attempt>, scope: Scope, value: string,
                                     withSnapshots: bool, id: string)
    requires |attempts| > 0 && |hosts| == |attempts| + 1
    requires forall i :: 0 <= i < |attempts| ==>
      AttemptOk(hosts[i], hosts[i + 1], attempts[i], scope, value, withSnapshots)
    requires var last := attempts[|attempts| - 1];
      last.purged == |last.ids| && Whole(last.ids, hosts[|attempts| - 1].db, scope, value)
    requires Gone(hosts[0], id, withSnapshots)
    ensures Gone(hosts[|attempts|], id, withSnapshots)
    ensures Owned(hosts[|attempts|].db, scope, value) == {}
    decreases |attempts|
  {
    var a := attempts[0];
    assert AttemptOk(hosts[0], hosts[1], a, scope, value, withSnapshots);
    assert id !in a.ids;
    assert Untouched(hosts[0], hosts[1], id);
    if |attempts| == 1 {
      NothingOwnedIff(hosts[0], hosts[1], a, scope, value, withSnapshots);
    } else {
      var hs, as' := hosts[1..], attempts[1..];
      forall i | 0 <= i < |as'|
        ensures AttemptOk(hs[i], hs[i + 1], as'[i], scope, value, withSnapshots)
      {
        assert as'[i] == attempts[i + 1];
      }
      StaysGone(hs, as', scope, value, withSnapshots, id);
    }
  }

  // --- a purge that is reported as failed --------------------------------------------------------

  /** A purge that is reported as failed has left the rows of its sandbox exactly if it did not
      give up waiting for a deletion that was carried out. */
  lemma {:induction false} FailedPurgeKeepsRowsIff(h: Host, h': Host, id: string, f: Faults, withSnapshots: bool)
    requires !Clean(h, id, f, withSnapshots) && (id in h.db.owners || id in h.db.sandboxes)
    requires PurgedOne(h, h', id, withSnapshots, LeftTooLate(h, id, f, withSnapshots))
    ensures (id in h'.db.owners || id in h'.db.sandboxes) <==> !LeftTooLate(h, id, f, withSnapshots)
  {
  }

  /** Such a request: its only sandbox is purged completely, the report is a failure, nothing is
      audited, and nothing is left for a retry to list. */
  method FailedRequestMayLeaveNothing() returns (s: Server, status: Status)
    ensures fresh(s) && status == PurgeFailed && s.audit == []
    ensures Owned(s.tables.Abs(), User, "u") == {} && Gone(s.Abs(), "a", true)
  {
    var t := new Tables();
    var o := t.Create("a", NewRow(Stopped, [], "", Sleep, Some("u"), None, None, 0), 4);
    s := new Server(t, {}, {}, map["a" := 7], map[], true);
    assert Owned(t.Abs(), User, "u") == {"a"};
    var f := Faults(false, false, false, false, None, None, 4, LeavesApplied);
    assert LeftTooLate(s.Abs(), "a", f, true);
    var purged;
    status, purged := s.PurgeScope(User, "u", Some(["a"]), [f]);
  }

  /** And one whose listing broke off before its first row: it is reported, and summarised in the
      audit log, as done, and its binding and its sandbox are untouched. */
  method BrokenListingReportsDone() returns (s: Server, status: Status)
    ensures fresh(s) && status == Done && s.audit == [Entry("external_user.purge", "u", "u")]
    ensures Owned(s.tables.Abs(), User, "u") == {"a"} && "a" in s.tables.sandboxes
  {
    var t := new Tables();
    var o := t.Create("a", NewRow(Stopped, [], "", Sleep, Some("u"), None, None, 0), 4);
    s := new Server(t, {}, {}, map["a" := 7], map[], true);
    assert Owned(t.Abs(), User, "u") == {"a"};
    ghost var h := s.Abs();
    var purged;
    status, purged := s.PurgeScope(User, "u", Some([]), []);
    assert SameAt(h.db.sandboxes, s.tables.sandboxes, "a");
  }
}
