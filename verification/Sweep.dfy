/** The boot sweep on real file names (control-plane/internal/snapshot/snapshotter.go
    `SweepStale`). */
module Sweep {
  import opened Common
  import opened Retention

  const BAK := ".img.bak-"
  const LIVE := ".img"
  const TMP := ".img.zst.tmp"

  predicate OccursAt(s: string, sub: string, i: nat) {
    i + |sub| <= |s| && s[i..i + |sub|] == sub
  }

  /** `strings.Index`: the first place `sub` occurs at or after `from`. */
  function IndexFrom(s: string, sub: string, from: nat): (r: Option<nat>)
    ensures r.Some? ==> r.value <= |s|
    decreases |s| - from
  {
    if from >= |s| then (if sub == "" && from == |s| then Some(from) else None)
    else if OccursAt(s, sub, from) then Some(from)
    else IndexFrom(s, sub, from + 1)
  }

  lemma {:induction false} IndexFromIsFirst(s: string, sub: string, from: nat)
    ensures var r := IndexFrom(s, sub, from);
      && (r.Some? ==> from <= r.value && OccursAt(s, sub, r.value)
                      && forall j :: from <= j < r.value ==> !OccursAt(s, sub, j))
      && (r.None? ==> forall j :: from <= j ==> !OccursAt(s, sub, j))
    decreases |s| - from
  {
    if from < |s| && !OccursAt(s, sub, from) {
      IndexFromIsFirst(s, sub, from + 1);
    }
  }

  /** The sandbox a restore backup belongs to; nothing for any other file. */
  function BakOwner(name: string): Option<string> {
    var i := IndexFrom(name, BAK, 0);
    if i.Some? then Some(name[..i.value]) else None
  }

  /** The live image of an id is taken for a backup exactly if the id itself contains the mark of
      one; for a canonical id, which has no dot, it never is. */
  lemma {:induction false} LiveIsBakIff(id: string)
    ensures BakOwner(id + LIVE).Some? <==> exists j :: OccursAt(id, BAK, j)
  {
    var live := id + LIVE;
    IndexFromIsFirst(live, BAK, 0);
    assert live[..|id|] == id;
    if BakOwner(live).Some? {
      var j := IndexFrom(live, BAK, 0).value;
      OccursBefore(id, |id|, j);
    }
    if j: nat :| OccursAt(id, BAK, j) {
      OccursLetterwise(id, BAK, j);
      OccursLetterwise(live, BAK, j);
    }
  }

  /** Such an id's live image is swept as soon as the id it seems to belong to has one. */
  lemma {:induction false} LiveImageMayBeDebris()
    ensures BakOwner("a.img.bak-b" + LIVE) == Some("a")
    ensures "a.img.bak-b" + LIVE in Debris({"a.img", "a.img.bak-b.img"}, {})
  {
    var live := "a.img.bak-b" + LIVE;
    assert live == "a.img.bak-b.img";
    assert live[1..1 + |BAK|] == BAK;
    assert OccursAt(live, BAK, 1);
    assert live[0] == 'a' && BAK[0] == '.';
    OccursLetterwise(live, BAK, 0);
    assert IndexFrom(live, BAK, 1) == Some(1);
    assert live[..1] == "a" && "a" + LIVE == "a.img";
  }

  /** The live image that decides a backup's fate is no backup itself, so sweeping one file
      cannot change the verdict on another. */
  lemma {:induction false} OwnersLiveIsNoBak(name: string)
    requires BakOwner(name).Some?
    ensures BakOwner(BakOwner(name).value + LIVE).None?
  {
    IndexFromIsFirst(name, BAK, 0);
    var first := IndexFrom(name, BAK, 0).value;
    IndexFromIsFirst(name[..first] + LIVE, BAK, 0);
    if j: nat :| OccursAt(name[..first] + LIVE, BAK, j) {
      OccursBefore(name, first, j);
    }
  }

  /** The mark of a backup cannot reach into the suffix of a live image: it ends in a dash. */
  lemma {:induction false} OccursBefore(name: string, first: nat, j: nat)
    requires first <= |name| && OccursAt(name[..first] + LIVE, BAK, j)
    ensures j < first && OccursAt(name, BAK, j)
  {
    var live := name[..first] + LIVE;
    OccursLetterwise(live, BAK, j);
    assert live[j + 8] == '-';
    assert forall k :: first <= k < |live| ==> live[k] == LIVE[k - first];
    assert forall k :: 0 <= k < first ==> live[k] == name[k];
    OccursLetterwise(name, BAK, j);
  }

  lemma {:induction false} OccursLetterwise(s: string, sub: string, i: nat)
    ensures OccursAt(s, sub, i) <==> i + |sub| <= |s| && forall k :: 0 <= k < |sub| ==> s[i + k] == sub[k]
  {
    if i + |sub| <= |s| {
      var t := s[i..i + |sub|];
      assert forall k :: 0 <= k < |sub| ==> t[k] == s[i + k];
    }
  }

  /** The name `Restore` gives a backup is read back to the sandbox it was made for, as long as
      the id has no dot. */
  lemma {:induction false} BakNameOwner(id: string, second: string)
    requires '.' !in id
    ensures BakOwner(id + BAK + second) == Some(id)
  {
    var name := id + BAK + second;
    IndexFromIsFirst(name, BAK, 0);
    assert OccursAt(name, BAK, |id|);
    forall j | 0 <= j < |id|
      ensures !OccursAt(name, BAK, j)
    {
      OccursLetterwise(name, BAK, j);
      assert name[j] == id[j];
      assert BAK[0] == '.';
    }
    assert name[..|id|] == id;
  }

  /** A backup whose sandbox has a live image, unless it cannot be removed. */
  predicate Doomed(name: string, files: set<string>, stuck: set<string>) {
    BakOwner(name).Some? && BakOwner(name).value + LIVE in files && name !in stuck
  }

  ghost function Debris(files: set<string>, stuck: set<string>): set<string> {
    set n | n in files && Doomed(n, files, stuck)
  }

  /** Neither a live image nor a backup that is the only copy is debris. */
  lemma {:induction false} OnlyCopyStays(files: set<string>, stuck: set<string>, id: string, second: string)
    requires '.' !in id
    ensures id + LIVE !in Debris(files, stuck)
    ensures id + LIVE !in files ==> id + BAK + second !in Debris(files, stuck)
  {
    BakNameOwner(id, second);
    OwnersLiveIsNoBak(id + BAK + second);
  }

  /** Having swept some debris changes no other file's verdict. */
  lemma {:induction false} VerdictIsStable(all: set<string>, swept: set<string>, stuck: set<string>, name: string)
    requires swept <= Debris(all, stuck) && name in all
    ensures Doomed(name, all - swept, stuck) <==> name in Debris(all, stuck)
  {
    if BakOwner(name).Some? {
      OwnersLiveIsNoBak(name);
    }
  }

  lemma {:induction false} OneLess(s: set<string>, entries: set<string>, x: string)
    requires x in entries
    ensures s - (entries - {x}) == if x in s then s - entries + {x} else s - entries
  {
  }

  lemma {:induction false} SubtractTwice(m: map<string, string>, s: set<string>, x: string)
    ensures m - s - {x} == m - (s + {x})
  {
  }

  class Workspaces {
    var files: map<string, string>

    /** One directory entry. */
    method SweepOne(name: string, stuck: set<string>) returns (hit: bool)
      modifies this
      ensures hit <==> Doomed(name, old(files).Keys, stuck)
      ensures files == if hit then old(files) - {name} else old(files)
    {
      var owner := BakOwner(name);
      hit := owner.Some? && owner.value + LIVE in files && name !in stuck;
      if hit {
        files := files - {name};
      }
    }

    /** Removes exactly the backups whose live image is there, and counts them. Every live
        image, and every backup that is the only copy, stays with its bytes. */
    method SweepBaks(stuck: set<string>) returns (removed: nat)
      modifies this
      ensures files == old(files) - Debris(old(files).Keys, stuck)
      ensures removed == |Debris(old(files).Keys, stuck)|
    {
      ghost var all := files;
      ghost var debris := Debris(files.Keys, stuck);
      var entries := files.Keys;
      ghost var swept: set<string> := {};
      removed := 0;
      while entries != {}
        invariant entries <= all.Keys && swept == debris - entries
        invariant files == all - swept
        invariant removed == |swept|
        decreases |entries|
      {
        var name :| name in entries;
        VerdictIsStable(all.Keys, swept, stuck, name);
        assert files.Keys == all.Keys - swept;
        var hit := SweepOne(name, stuck);
        OneLess(debris, entries, name);
        entries := entries - {name};
        if hit {
          SubtractTwice(all, swept, name);
          swept := swept + {name};
          removed := removed + 1;
        }
      }
      assert swept == debris;
    }

    /** Half-written snapshots of one sandbox's directory. */
    method SweepTmps(dir: set<string>, stuck: set<string>) returns (left: set<string>, removed: nat)
      ensures left == dir - HalfWritten(dir, stuck)
      ensures removed == |HalfWritten(dir, stuck)|
    {
      ghost var half := HalfWritten(dir, stuck);
      var todo := dir;
      ghost var swept: set<string> := {};
      left, removed := dir, 0;
      while todo != {}
        invariant todo <= dir && swept == half - todo && left == dir - swept && removed == |swept|
        decreases |todo|
      {
        var f :| f in todo;
        var hit := HasSuffix(f, TMP) && f !in stuck;
        assert hit <==> f in half;
        OneLess(half, todo, f);
        todo := todo - {f};
        if hit {
          left := left - {f};
          swept := swept + {f};
          removed := removed + 1;
        }
      }
      assert swept == half;
    }
  }

  ghost function HalfWritten(dir: set<string>, stuck: set<string>): set<string> {
    set f | f in dir && HasSuffix(f, TMP) && f !in stuck
  }
}
