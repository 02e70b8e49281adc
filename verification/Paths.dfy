/** Lexical path cleaning and the two checks built on it
    (control-plane/internal/api/v1_files.go `safeJoin`,
    control-plane/internal/api/v1_files_write.go `resolveWritePath`). */
module Paths {
  import opened Common

  // --- segments ----------------------------------------------------------------------------

  /** `strings.Split(s, "/")`. */
  function Split(s: string): (r: seq<string>)
    ensures |r| >= 1
  {
    if s == "" then [""]
    else
      var r := Split(s[1..]);
      if s[0] == '/' then [""] + r else [[s[0]] + r[0]] + r[1..]
  }

  function Glue(segs: seq<string>): string {
    if segs == [] then "" else if |segs| == 1 then segs[0] else segs[0] + "/" + Glue(segs[1..])
  }

  ghost predicate NoSlash(segs: seq<string>) {
    forall i :: 0 <= i < |segs| ==> '/' !in segs[i]
  }

  lemma {:induction false} SplitHasNoSlash(s: string)
    ensures NoSlash(Split(s))
    decreases |s|
  {
    if s != "" {
      SplitHasNoSlash(s[1..]);
    }
  }

  lemma {:induction false} SplitPlain(a: string)
    requires '/' !in a
    ensures Split(a) == [a]
    decreases |a|
  {
    if a != "" {
      SplitPlain(a[1..]);
      assert a == [a[0]] + a[1..];
    }
  }

  lemma {:induction false} SplitAppend(a: string, b: string)
    ensures Split(a + "/" + b) == Split(a) + Split(b)
    decreases |a|
  {
    var s := a + "/" + b;
    if a == "" {
      assert s == "/" + b && s[1..] == b;
    } else {
      assert s[1..] == a[1..] + "/" + b && s[0] == a[0];
      SplitAppend(a[1..], b);
    }
  }

  lemma {:induction false} SplitGlue(segs: seq<string>)
    requires segs != [] && NoSlash(segs)
    ensures Split(Glue(segs)) == segs
    decreases |segs|
  {
    SplitPlain(segs[0]);
    if |segs| > 1 {
      SplitGlue(segs[1..]);
      SplitAppend(segs[0], Glue(segs[1..]));
      assert segs == [segs[0]] + segs[1..];
    }
  }

  lemma {:induction false} GlueSplit(s: string)
    ensures Glue(Split(s)) == s
    decreases |s|
  {
    if s != "" {
      GlueSplit(s[1..]);
      assert s == [s[0]] + s[1..];
    }
  }

  lemma {:induction false} GlueAppend(a: seq<string>, b: seq<string>)
    requires a != [] && b != []
    ensures Glue(a + b) == Glue(a) + "/" + Glue(b)
    decreases |a|
  {
    if |a| == 1 {
      assert (a + b)[1..] == b;
    } else {
      assert (a + b)[1..] == a[1..] + b;
      GlueAppend(a[1..], b);
    }
  }

  // --- Clean ---------------------------------------------------------------------------------

  /** One segment against the segments kept so far: empty and `.` vanish, `..` takes one back
      where it can, stays in front of a relative path, and vanishes at a root. */
  function Push(rooted: bool, kept: seq<string>, seg: string): seq<string> {
    if seg == "" || seg == "." then kept
    else if seg == ".." then
      if kept != [] && kept[|kept| - 1] != ".." then kept[..|kept| - 1]
      else if rooted then kept
      else kept + [seg]
    else kept + [seg]
  }

  function Norm(rooted: bool, kept: seq<string>, segs: seq<string>): seq<string>
    decreases |segs|
  {
    if segs == [] then kept else Norm(rooted, Push(rooted, kept, segs[0]), segs[1..])
  }

  predicate IsAbs(p: string) {
    p != "" && p[0] == '/'
  }

  /** The segments `Clean` keeps. */
  function Kept(p: string): seq<string> {
    Norm(IsAbs(p), [], Split(p))
  }

  /** `filepath.Clean` on Unix. */
  function Clean(p: string): string {
    if p == "" then "."
    else if IsAbs(p) then "/" + Glue(Kept(p))
    else if Kept(p) == [] then "." else Glue(Kept(p))
  }

  /** `filepath.Join` of two elements. */
  function Join(a: string, b: string): string {
    if a == "" then (if b == "" then "" else Clean(b))
    else if b == "" then Clean(a) else Clean(a + "/" + b)
  }

  predicate IsName(seg: string) {
    seg != "" && seg != "." && seg != ".." && '/' !in seg
  }

  /** Names only, after leading `..` where the path is relative. */
  ghost predicate Normal(rooted: bool, segs: seq<string>) {
    && (forall i :: 0 <= i < |segs| ==> IsName(segs[i]) || (!rooted && segs[i] == ".."))
    && (forall i :: 0 < i < |segs| && segs[i] == ".." ==> segs[i - 1] == "..")
  }

  lemma {:induction false} NormIsNormal(rooted: bool, kept: seq<string>, segs: seq<string>)
    requires Normal(rooted, kept) && NoSlash(segs)
    ensures Normal(rooted, Norm(rooted, kept, segs))
    decreases |segs|
  {
    if segs != [] {
      NormIsNormal(rooted, Push(rooted, kept, segs[0]), segs[1..]);
    }
  }

  /** Normal segments pass through unchanged. */
  lemma {:induction false} NormFixes(rooted: bool, kept: seq<string>, segs: seq<string>)
    requires Normal(rooted, kept + segs)
    ensures Norm(rooted, kept, segs) == kept + segs
    decreases |segs|
  {
    if segs == [] {
      assert kept + segs == kept;
    } else {
      assert (kept + segs)[|kept|] == segs[0];
      assert kept != [] ==> (kept + segs)[|kept| - 1] == kept[|kept| - 1];
      assert Push(rooted, kept, segs[0]) == kept + [segs[0]];
      assert kept + [segs[0]] + segs[1..] == kept + segs;
      NormFixes(rooted, kept + [segs[0]], segs[1..]);
    }
  }

  lemma {:induction false} NormAppend(rooted: bool, kept: seq<string>, a: seq<string>, b: seq<string>)
    ensures Norm(rooted, kept, a + b) == Norm(rooted, Norm(rooted, kept, a), b)
    decreases |a|
  {
    if a == [] {
      assert a + b == b;
    } else {
      assert (a + b)[1..] == a[1..] + b;
      NormAppend(rooted, Push(rooted, kept, a[0]), a[1..], b);
    }
  }

  lemma {:induction false} KeptIsNormal(p: string)
    ensures Normal(IsAbs(p), Kept(p)) && NoSlash(Kept(p))
  {
    SplitHasNoSlash(p);
    NormIsNormal(IsAbs(p), [], Split(p));
  }

  /** Reading a rooted path back gives its segments. */
  lemma {:induction false} KeptOfRooted(segs: seq<string>)
    requires Normal(true, segs)
    ensures Kept("/" + Glue(segs)) == segs
    ensures Split("/" + Glue(segs)) == [""] + (if segs == [] then [""] else segs)
  {
    var p := "/" + Glue(segs);
    assert p == "" + "/" + Glue(segs);
    SplitAppend("", Glue(segs));
    if segs == [] {
      assert Split(p) == ["", ""];
      assert Norm(true, [], ["", ""]) == [];
    } else {
      SplitGlue(segs);
      assert Split(p)[1..] == segs;
      assert [] + segs == segs;
      NormFixes(true, [], segs);
    }
  }

  lemma {:induction false} KeptOfRelative(segs: seq<string>)
    requires segs != [] && Normal(false, segs)
    ensures Glue(segs) != "" && !IsAbs(Glue(segs)) && Kept(Glue(segs)) == segs
  {
    SplitGlue(segs);
    assert segs[0] != "" && Glue(segs)[0] == segs[0][0] && segs[0][0] in segs[0];
    assert [] + segs == segs;
    NormFixes(false, [], segs);
  }

  lemma {:induction false} CleanIsIdempotent(p: string)
    ensures Clean(Clean(p)) == Clean(p)
  {
    KeptIsNormal(p);
    if p == "" || (!IsAbs(p) && Kept(p) == []) {
      assert Split(".") == ["."] by { SplitPlain("."); }
      assert Kept(".") == Norm(false, [], ["."]) == [];
    } else if IsAbs(p) {
      KeptOfRooted(Kept(p));
    } else {
      KeptOfRelative(Kept(p));
    }
  }

  /** A cleaned relative path climbs above its start exactly when some prefix of the raw path
      has more `..` than names: a definition that keeps no stack. */
  function Depth(segs: seq<string>): int {
    if segs == [] then 0 else
      Depth(segs[..|segs| - 1]) +
      var seg := segs[|segs| - 1];
      if seg == "" || seg == "." then 0 else if seg == ".." then -1 else 1
  }

  ghost predicate Climbs(from: int, segs: seq<string>) {
    exists k :: 0 <= k <= |segs| && from + Depth(segs[..k]) < 0
  }

  lemma {:induction false} DepthCons(seg: string, segs: seq<string>)
    ensures Depth([seg] + segs) == Depth([seg]) + Depth(segs)
    decreases |segs|
  {
    if segs == [] {
      assert [seg] + segs == [seg];
    } else {
      var front := segs[..|segs| - 1];
      assert ([seg] + segs)[..|segs|] == [seg] + front;
      DepthCons(seg, front);
    }
  }

  lemma {:induction false} ClimbsCons(from: int, seg: string, segs: seq<string>)
    requires from >= 0
    ensures Climbs(from, [seg] + segs) <==> Climbs(from + Depth([seg]), segs)
  {
    var all := [seg] + segs;
    if k :| 0 <= k <= |all| && from + Depth(all[..k]) < 0 {
      assert all[..0] == [];
      assert all[..k] == [seg] + segs[..k - 1];
      DepthCons(seg, segs[..k - 1]);
    }
    if k :| 0 <= k <= |segs| && from + Depth([seg]) + Depth(segs[..k]) < 0 {
      assert all[..k + 1] == [seg] + segs[..k];
      DepthCons(seg, segs[..k]);
    }
  }

  lemma {:induction false} DepthOfOne(seg: string)
    ensures Depth([seg]) == if seg == "" || seg == "." then 0 else if seg == ".." then -1 else 1
  {
    assert [seg][..0] == [];
  }

  /** What one push does to the number of names kept, while there is no leading `..`. */
  lemma {:induction false} PushDepth(kept: seq<string>, seg: string)
    requires Normal(false, kept) && '/' !in seg
    ensures var next := Push(false, kept, seg);
      && Normal(false, next)
      && (if kept != [] && kept[0] == ".." then next != [] && next[0] == ".."
          else if kept == [] && seg == ".." then next == [".."]
          else |next| == |kept| + Depth([seg]) && (next == [] || next[0] != ".."))
  {
    DepthOfOne(seg);
    if kept != [] && kept[0] != ".." {
      OnlyNames(kept);
    }
  }

  /** Without a leading `..` there is none at all. */
  lemma {:induction false} OnlyNames(segs: seq<string>)
    requires Normal(false, segs) && (segs != [] ==> segs[0] != "..")
    ensures Normal(true, segs)
    decreases |segs|
  {
    if |segs| > 1 {
      var n := |segs| - 1;
      var front := segs[..n];
      assert forall i :: 0 <= i < n ==> front[i] == segs[i];
      OnlyNames(front);
      assert IsName(segs[n - 1]) by {
        assert IsName(front[n - 1]);
      }
      forall i | 0 <= i < |segs|
        ensures IsName(segs[i])
      {
        if i < n {
          assert IsName(front[i]);
        }
      }
    }
  }

  lemma {:induction false} NormClimbs(kept: seq<string>, segs: seq<string>)
    requires Normal(false, kept) && NoSlash(segs)
    ensures var out := Norm(false, kept, segs);
      out != [] && out[0] == ".." <==> (kept != [] && kept[0] == "..") || Climbs(|kept|, segs)
    decreases |segs|
  {
    if segs == [] {
      assert segs[..0] == [];
    } else {
      var next := Push(false, kept, segs[0]);
      PushDepth(kept, segs[0]);
      NormClimbs(next, segs[1..]);
      assert segs == [segs[0]] + segs[1..];
      ClimbsCons(|kept|, segs[0], segs[1..]);
      if kept == [] && segs[0] == ".." {
        DepthOfOne("..");
        assert segs[1..][..0] == [];
      }
    }
  }

  // --- which segments are left ------------------------------------------------------------------

  predicate Skipped(seg: string) {
    seg == "" || seg == "."
  }

  /** The segments that last, in their order, by a definition that keeps no stack: each name after
      which no stretch of the path has more `..` than names. */
  ghost function Lasting(segs: seq<string>): seq<string> {
    if segs == [] then []
    else
      (if !Skipped(segs[0]) && segs[0] != ".." && !Climbs(0, segs[1..]) then [segs[0]] else []) + Lasting(segs[1..])
  }

  /** How far some prefix of the path climbs at most. */
  function Climb(segs: seq<string>): nat {
    if segs == [] then 0
    else if Skipped(segs[0]) then Climb(segs[1..])
    else if segs[0] == ".." then Climb(segs[1..]) + 1
    else if Climb(segs[1..]) == 0 then 0 else Climb(segs[1..]) - 1
  }

  lemma {:induction false} ClimbIff(from: nat, segs: seq<string>)
    ensures Climbs(from, segs) <==> from < Climb(segs)
    decreases |segs|
  {
    if segs == [] {
      assert forall k | 0 <= k <= |segs| :: segs[..k] == [];
    } else {
      assert segs == [segs[0]] + segs[1..];
      ClimbsCons(from, segs[0], segs[1..]);
      DepthOfOne(segs[0]);
      if from + Depth([segs[0]]) >= 0 {
        ClimbIff(from + Depth([segs[0]]), segs[1..]);
      } else {
        assert segs[1..][..0] == [];
      }
    }
  }

  function Dots(n: nat): (r: seq<string>)
    ensures |r| == n && forall i :: 0 <= i < n ==> r[i] == ".."
  {
    seq(n, _ => "..")
  }

  /** `n` steps up from `dots` leading `..` and `names`. */
  function Up(rooted: bool, dots: nat, names: seq<string>, n: nat): seq<string> {
    if n <= |names| then Dots(dots) + names[..|names| - n]
    else if rooted then Dots(dots) else Dots(dots + n - |names|)
  }

  ghost predicate AllNames(segs: seq<string>) {
    forall i :: 0 <= i < |segs| ==> segs[i] != ".."
  }

  /** Cleaning `segs` after `dots` leading `..` and `names`: up as far as they climb, then what lasts. */
  ghost predicate Cleans(rooted: bool, dots: nat, names: seq<string>, segs: seq<string>) {
    Norm(rooted, Dots(dots) + names, segs) == Up(rooted, dots, names, Climb(segs)) + Lasting(segs)
  }

  lemma {:induction false} NormIs(rooted: bool, dots: nat, names: seq<string>, segs: seq<string>)
    requires AllNames(names) && (rooted ==> dots == 0)
    ensures Cleans(rooted, dots, names, segs)
    decreases |segs|
  {
    if segs == [] {
      assert names[..|names|] == names;
    } else {
      var seg, rest := segs[0], segs[1..];
      if Skipped(seg) {
        NormIs(rooted, dots, names, rest);
        assert [] + Lasting(rest) == Lasting(rest);
      } else if seg == ".." {
        var dots', names' := UpOne(rooted, dots, names, Climb(rest));
        NormIs(rooted, dots', names', rest);
        assert [] + Lasting(rest) == Lasting(rest);
      } else {
        NormIs(rooted, dots, names + [seg], rest);
        PastName(rooted, dots, names, segs);
      }
    }
  }

  lemma {:induction false} PastName(rooted: bool, dots: nat, names: seq<string>, segs: seq<string>)
    requires segs != [] && !Skipped(segs[0]) && segs[0] != ".."
    requires Cleans(rooted, dots, names + [segs[0]], segs[1..])
    ensures Cleans(rooted, dots, names, segs)
  {
    var seg, rest := segs[0], segs[1..];
    var up, n := Up(rooted, dots, names, Climb(segs)), Climb(rest);
    assert Norm(rooted, Dots(dots) + names, segs) == Norm(rooted, Dots(dots) + (names + [seg]), rest) by {
      PushName(rooted, dots, names, seg);
    }
    assert Up(rooted, dots, names + [seg], n) == if n == 0 then up + [seg] else up by {
      UpPastName(rooted, dots, names, seg, n);
    }
    LastingName(segs);
    Regroup3(up, [seg], Lasting(rest));
  }

  lemma {:induction false} LastingName(segs: seq<string>)
    requires segs != [] && !Skipped(segs[0]) && segs[0] != ".."
    ensures Lasting(segs) == if Climb(segs[1..]) == 0 then [segs[0]] + Lasting(segs[1..]) else Lasting(segs[1..])
  {
    ClimbIff(0, segs[1..]);
    assert [] + Lasting(segs[1..]) == Lasting(segs[1..]);
  }

  lemma {:induction false} Regroup3<T>(a: seq<T>, b: seq<T>, c: seq<T>)
    ensures a + b + c == a + (b + c)
  {
  }

  lemma {:induction false} PushName(rooted: bool, dots: nat, names: seq<string>, seg: string)
    requires !Skipped(seg) && seg != ".."
    ensures Push(rooted, Dots(dots) + names, seg) == Dots(dots) + (names + [seg])
  {
  }

  lemma {:induction false} UpPastName(rooted: bool, dots: nat, names: seq<string>, seg: string, n: nat)
    ensures Up(rooted, dots, names + [seg], n)
      == if n == 0 then Up(rooted, dots, names, 0) + [seg] else Up(rooted, dots, names, n - 1)
  {
    if n == 0 {
      assert (names + [seg])[..|names| + 1] == names + [seg] && names[..|names|] == names;
    } else if n <= |names| + 1 {
      assert (names + [seg])[..|names| + 1 - n] == names[..|names| + 1 - n];
    }
  }

  /** One `..` against leading `..` and names. */
  lemma {:induction false} UpOne(rooted: bool, dots: nat, names: seq<string>, n: nat)
    returns (dots': nat, names': seq<string>)
    requires AllNames(names) && (rooted ==> dots == 0)
    ensures AllNames(names') && (rooted ==> dots' == 0)
    ensures Push(rooted, Dots(dots) + names, "..") == Dots(dots') + names'
    ensures Up(rooted, dots', names', n) == Up(rooted, dots, names, n + 1)
  {
    var kept := Dots(dots) + names;
    if names != [] {
      dots', names' := dots, names[..|names| - 1];
      assert kept[..|kept| - 1] == Dots(dots) + names';
      assert n <= |names'| ==> names'[..|names'| - n] == names[..|names| - (n + 1)];
    } else {
      dots', names' := if rooted then 0 else dots + 1, [];
      assert kept == Dots(dots) && Dots(dots') + [] == Dots(dots');
      assert names[..0] == [];
    }
  }

  /** What cleaning keeps: the lasting names, after as many `..` as a relative path climbs. */
  lemma {:induction false} KeptIs(p: string)
    ensures Kept(p) == (if IsAbs(p) then [] else Dots(Climb(Split(p)))) + Lasting(Split(p))
  {
    assert Dots(0) + [] == [];
    NormIs(IsAbs(p), 0, [], Split(p));
  }

  /** So that is what `filepath.Clean` computes, with no stack. */
  lemma {:induction false} CleanIs(p: string)
    ensures var up, names := Climb(Split(p)), Lasting(Split(p));
      Clean(p) == if p != "" && p[0] == '/' then "/" + Glue(names)
                  else if up == 0 && names == [] then "." else Glue(Dots(up) + names)
  {
    KeptIs(p);
    assert [] + Lasting(Split(p)) == Lasting(Split(p));
    if p == "" {
      SplitPlain("");
      assert [""][1..] == [];
    }
  }

  /** In particular a name and the `..` after it go together, wherever they stand. */
  lemma {:induction false} NameAndUpCancel(rooted: bool, kept: seq<string>, a: seq<string>, x: string, b: seq<string>)
    requires IsName(x)
    ensures Norm(rooted, kept, a + [x, ".."] + b) == Norm(rooted, kept, a + b)
  {
    NormAppend(rooted, kept, a + [x, ".."], b);
    NormAppend(rooted, kept, a, [x, ".."]);
    NormAppend(rooted, kept, a, b);
    var k := Norm(rooted, kept, a);
    assert [x, ".."][1..] == [".."] && [".."][1..] == [];
    assert (k + [x])[..|k|] == k;
    assert Norm(rooted, k, [x, ".."]) == Norm(rooted, k + [x], [".."]) == k;
  }

  // --- safeJoin --------------------------------------------------------------------------------

  predicate IsPrefix(prefix: string, s: string) {
    |prefix| <= |s| && s[..|prefix|] == prefix
  }

  function SafeJoin(root: string, p: string): Option<string> {
    var full := Join(root, Clean("/" + p));
    if full != root && !IsPrefix(root + "/", full) then None else Some(full)
  }

  ghost predicate CleanAbs(root: string) {
    IsAbs(root) && Clean(root) == root
  }

  /** Joining a clean root and the segments of a clean rooted path concatenates segments. */
  lemma {:induction false} JoinKeeps(root: string, segs: seq<string>)
    requires CleanAbs(root) && Normal(true, segs)
    ensures Join(root, "/" + Glue(segs)) == "/" + Glue(Kept(root) + segs)
    ensures Kept(Join(root, "/" + Glue(segs))) == Kept(root) + segs
  {
    var r := Kept(root);
    KeptIsNormal(root);
    var q := "/" + Glue(segs);
    SplitAppend(root, q);
    NormAppend(true, [], Split(root), Split(q));
    KeptOfRooted(segs);
    assert Normal(true, r + segs);
    NormAppend(true, r, [""], if segs == [] then [""] else segs);
    NormFixes(true, r, segs);
    assert Norm(true, r, Split(q)) == r + segs;
    assert Kept(root + "/" + q) == r + segs;
    KeptOfRooted(r + segs);
  }

  /** Whatever is passed in, the result is the root, or what lasts of the path below it; the
      rejecting branch is unreachable. */
  lemma {:induction false} SafeJoinStaysInside(root: string, p: string)
    requires CleanAbs(root) && root != "/"
    ensures var names := Lasting(Split(p));
      && SafeJoin(root, p) == Some(if names == [] then root else root + ("/" + Glue(names)))
      && Kept(SafeJoin(root, p).value) == Kept(root) + names && Normal(true, names)
  {
    var segs := Kept("/" + p);
    KeptIsNormal("/" + p);
    KeptOfSlash(p);
    JoinKeeps(root, segs);
    GlueOfNames(segs);
    if segs != [] {
      GlueBelow(root, segs);
    } else {
      assert Kept(root) + segs == Kept(root);
    }
  }

  lemma {:induction false} KeptOfSlash(p: string)
    ensures Kept("/" + p) == Lasting(Split(p))
  {
    assert "/" + p == "" + "/" + p;
    SplitAppend("", p);
    KeptIs("/" + p);
    assert Split("/" + p)[1..] == Split(p);
    assert [] + Lasting(Split(p)) == Lasting(Split(p));
  }

  lemma {:induction false} GlueBelow(root: string, segs: seq<string>)
    requires CleanAbs(root) && root != "/" && segs != []
    ensures "/" + Glue(Kept(root) + segs) == root + ("/" + Glue(segs))
    ensures IsPrefix(root + "/", root + ("/" + Glue(segs)))
  {
    GlueRoot(root);
    GlueAppend(Kept(root), segs);
    Regroup(Glue(Kept(root)), Glue(segs), root);
  }

  lemma {:induction false} Regroup(g: string, h: string, root: string)
    ensures "/" + (g + "/" + h) == "/" + g + ("/" + h)
    ensures IsPrefix(root + "/", root + ("/" + h))
  {
    assert "/" + (g + "/" + h) == "/" + g + ("/" + h);
    assert root + ("/" + h) == root + "/" + h;
  }

  lemma {:induction false} GlueRoot(root: string)
    requires CleanAbs(root) && root != "/"
    ensures root == "/" + Glue(Kept(root)) && Kept(root) != []
  {
  }

  lemma {:induction false} GlueOfNames(segs: seq<string>)
    requires Normal(true, segs)
    ensures Glue(segs) == "" <==> segs == []
    ensures segs != [] ==> Glue(segs)[0] != '/'
  {
    if segs != [] {
      assert IsName(segs[0]) && Glue(segs)[0] == segs[0][0] && segs[0][0] in segs[0];
    }
  }

  /** Only for the root directory itself does the rejecting branch act, and there it rejects
      everything but the root: a clean root accepts every path exactly when it is not "/". */
  lemma {:induction false} SafeJoinAcceptsIff(root: string, p: string)
    requires CleanAbs(root)
    ensures SafeJoin(root, p).Some? <==> root != "/" || Lasting(Split(p)) == []
  {
    KeptOfSlash(p);
    if root != "/" {
      SafeJoinStaysInside(root, p);
    } else {
      var segs := Kept("/" + p);
      KeptIsNormal("/" + p);
      JoinKeeps("/", segs);
      KeptOfRooted([]);
      assert "/" + Glue([]) == "/";
      assert Kept("/") + segs == segs;
      GlueOfNames(segs);
      var full := Join("/", Clean("/" + p));
      assert full == "/" + Glue(segs);
      if segs != [] {
        assert full[1] != '/' && (root + "/")[1] == '/';
      }
    }
  }

  // --- resolveWritePath ---------------------------------------------------------------------------

  datatype PathError =
    | Empty | NulByte | Absolute | DirectoryIntent | Traversal | Root
    | DirectoryAfterClean | Reserved | Escapes

  datatype Resolved = Accepted(full: string, rel: string) | Rejected(why: PathError)

  const RESERVED: seq<string> := [".runtimed/", ".runtimed", "lost+found/", "lost+found"]

  predicate EndsWithSlash(s: string) {
    s != "" && s[|s| - 1] == '/'
  }

  function TrimSlash(s: string): string {
    if EndsWithSlash(s) then s[..|s| - 1] else s
  }

  predicate InReserved(clean: string) {
    exists i :: 0 <= i < |RESERVED| &&
      (clean == TrimSlash(RESERVED[i]) || IsPrefix(TrimSlash(RESERVED[i]) + "/", clean))
  }

  function ResolveWritePath(mnt: string, raw: string): Resolved {
    if raw == "" then Rejected(Empty)
    else if '\0' in raw then Rejected(NulByte)
    else if IsAbs(raw) then Rejected(Absolute)
    else if EndsWithSlash(raw) then Rejected(DirectoryIntent)
    else
      var clean := Clean(raw);
      if ".." in Split(clean) then Rejected(Traversal)
      else if clean == "." || clean == "/" then Rejected(Root)
      else if EndsWithSlash(clean) then Rejected(DirectoryAfterClean)
      else if InReserved(clean) then Rejected(Reserved)
      else
        var full := Join(mnt, clean);
        if full != mnt && !IsPrefix(mnt + "/", full) then Rejected(Escapes)
        else Accepted(full, clean)
  }

  lemma {:induction false} GlueEndsInName(segs: seq<string>)
    requires segs != [] && Normal(false, segs)
    ensures Glue(segs) != "" && !EndsWithSlash(Glue(segs))
    decreases |segs|
  {
    if |segs| > 1 {
      var rest := segs[1..];
      assert forall i :: 0 <= i < |rest| ==> rest[i] == segs[i + 1];
      assert Normal(false, rest);
      GlueEndsInName(rest);
    } else {
      assert segs[0][|segs[0]| - 1] in segs[0];
    }
  }

  lemma {:induction false} ReservedIsFirst(segs: seq<string>)
    requires segs != [] && NoSlash(segs)
    ensures InReserved(Glue(segs)) <==> segs[0] == ".runtimed" || segs[0] == "lost+found"
  {
    var clean := Glue(segs);
    assert TrimSlash(RESERVED[0]) == TrimSlash(RESERVED[1]) == ".runtimed";
    assert TrimSlash(RESERVED[2]) == TrimSlash(RESERVED[3]) == "lost+found";
    FirstSegment(segs, ".runtimed");
    FirstSegment(segs, "lost+found");
  }

  lemma {:induction false} FirstSegment(segs: seq<string>, name: string)
    requires segs != [] && NoSlash(segs) && '/' !in name
    ensures Glue(segs) == name || IsPrefix(name + "/", Glue(segs)) <==> segs[0] == name
  {
    var clean := Glue(segs);
    SplitGlue(segs);
    if clean == name {
      SplitPlain(name);
    } else if IsPrefix(name + "/", clean) {
      assert clean == name + "/" + clean[|name| + 1..];
      SplitAppend(name, clean[|name| + 1..]);
      SplitPlain(name);
    }
  }

  /** The checks on the raw path. */
  predicate WellFormed(raw: string) {
    raw != "" && '\0' !in raw && raw[0] != '/' && raw[|raw| - 1] != '/'
  }

  /** What `Clean` makes of a well-formed path: names only exactly if it does not climb. */
  lemma {:induction false} CleanRelative(raw: string)
    requires raw != "" && !IsAbs(raw)
    ensures var segs := Kept(raw);
      && (Climbs(0, Split(raw)) <==> segs != [] && segs[0] == "..")
      && (!Climbs(0, Split(raw)) ==> segs == Lasting(Split(raw)) && Normal(true, segs))
  {
    KeptIsNormal(raw);
    SplitHasNoSlash(raw);
    NormClimbs([], Split(raw));
    ClimbIff(0, Split(raw));
    KeptIs(raw);
    if !Climbs(0, Split(raw)) {
      assert Dots(0) + Lasting(Split(raw)) == Lasting(Split(raw));
      OnlyNames(Kept(raw));
    }
  }

  /** A cleaned relative path contains `..` exactly when it starts with it. */
  lemma {:induction false} DotDotLeads(raw: string)
    requires raw != "" && !IsAbs(raw)
    ensures ".." in Split(Clean(raw)) <==> Kept(raw) != [] && Kept(raw)[0] == ".."
  {
    var segs := Kept(raw);
    KeptIsNormal(raw);
    if segs == [] {
      SplitPlain(".");
    } else {
      SplitGlue(segs);
      if segs[0] != ".." {
        OnlyNames(segs);
      }
    }
  }

  /** Exactly which paths are accepted, what they resolve to, and why the others are not. The check
      for a slash left by `Clean` and the final prefix check never reject anything. */
  lemma {:induction false} ResolveExact(mnt: string, raw: string)
    requires CleanAbs(mnt) && mnt != "/"
    ensures var r, names := ResolveWritePath(mnt, raw), Lasting(Split(raw));
      var inside := WellFormed(raw) && !Climbs(0, Split(raw));
      && (r == Rejected(Empty) <==> raw == "")
      && (r == Rejected(NulByte) <==> '\0' in raw)
      && (r == Rejected(Absolute) <==> raw != "" && '\0' !in raw && raw[0] == '/')
      && (r == Rejected(DirectoryIntent) <==>
            raw != "" && '\0' !in raw && raw[0] != '/' && raw[|raw| - 1] == '/')
      && (r == Rejected(Traversal) <==> WellFormed(raw) && Climbs(0, Split(raw)))
      && (r == Rejected(Root) <==> inside && names == [])
      && (r == Rejected(Reserved) <==> inside && names != [] && names[0] in {".runtimed", "lost+found"})
      && (r.Accepted? <==> inside && names != [] && names[0] !in {".runtimed", "lost+found"})
      && (r.Accepted? ==> r == Accepted(mnt + "/" + Glue(names), Glue(names)))
  {
    if WellFormed(raw) {
      CleanRelative(raw);
      DotDotLeads(raw);
      if !Climbs(0, Split(raw)) {
        ResolveInside(mnt, raw);
      }
    }
  }

  lemma {:induction false} ResolveInside(mnt: string, raw: string)
    requires CleanAbs(mnt) && mnt != "/" && WellFormed(raw) && Normal(true, Kept(raw)) && ".." !in Split(Clean(raw))
    ensures var r, names := ResolveWritePath(mnt, raw), Kept(raw);
      r == if names == [] then Rejected(Root)
           else if names[0] == ".runtimed" || names[0] == "lost+found" then Rejected(Reserved)
           else Accepted(mnt + "/" + Glue(names), Glue(names))
  {
    var names := Kept(raw);
    KeptIsNormal(raw);
    if names != [] {
      KeptOfRelative(names);
      GlueEndsInName(names);
      ReservedIsFirst(names);
      UnderMount(mnt, names);
    }
  }

  lemma {:induction false} UnderMount(mnt: string, segs: seq<string>)
    requires CleanAbs(mnt) && mnt != "/" && segs != [] && Normal(true, segs)
    ensures Join(mnt, Glue(segs)) == mnt + "/" + Glue(segs)
    ensures IsPrefix(mnt + "/", Join(mnt, Glue(segs)))
    ensures Kept(Join(mnt, Glue(segs))) == Kept(mnt) + segs
    ensures ".." !in segs && Glue(segs) != "."
  {
    NotDot(segs);
    JoinUnder(mnt, segs);
    GlueBelow(mnt, segs);
    Regroup3(mnt, "/", Glue(segs));
  }

  lemma {:induction false} JoinUnder(mnt: string, segs: seq<string>)
    requires CleanAbs(mnt) && segs != [] && Normal(true, segs) && Glue(segs) != ""
    ensures Join(mnt, Glue(segs)) == "/" + Glue(Kept(mnt) + segs)
    ensures Kept(Join(mnt, Glue(segs))) == Kept(mnt) + segs
  {
    KeptUnder(mnt, segs);
    KeptOfRooted(Kept(mnt) + segs);
  }

  lemma {:induction false} KeptUnder(mnt: string, segs: seq<string>)
    requires CleanAbs(mnt) && segs != [] && Normal(true, segs)
    ensures IsAbs(mnt + "/" + Glue(segs)) && Kept(mnt + "/" + Glue(segs)) == Kept(mnt) + segs
    ensures Normal(true, Kept(mnt) + segs)
  {
    KeptIsNormal(mnt);
    SplitAppend(mnt, Glue(segs));
    SplitGlue(segs);
    NormAppend(true, [], Split(mnt), segs);
    NormFixes(true, Kept(mnt), segs);
  }

  lemma {:induction false} NotDot(segs: seq<string>)
    requires segs != [] && Normal(true, segs)
    ensures ".." !in segs && Glue(segs) != "." && Glue(segs) != ""
  {
    SplitGlue(segs);
    SplitPlain(".");
    SplitPlain("");
  }

  /** What an accepted path means: a file strictly below the mount, below no reserved name, by
      a path with no `..` left; and the raw path never climbed above the mount on its way. */
  lemma {:induction false} AcceptedStaysInside(mnt: string, raw: string)
    requires CleanAbs(mnt) && mnt != "/" && ResolveWritePath(mnt, raw).Accepted?
    ensures var full := ResolveWritePath(mnt, raw).full;
      && full != mnt && IsPrefix(mnt + "/", full)
      && var names := Lasting(Split(raw));
         && Kept(full) == Kept(mnt) + names && names != [] && Normal(true, names)
         && names[0] != ".runtimed" && names[0] != "lost+found"
    ensures !Climbs(0, Split(raw))
  {
    ResolveExact(mnt, raw);
    CleanRelative(raw);
    UnderMount(mnt, Kept(raw));
  }

  /** A path is turned away as traversal exactly when it is otherwise well-formed and climbs. */
  lemma {:induction false} TraversalIff(mnt: string, raw: string)
    ensures ResolveWritePath(mnt, raw) == Rejected(Traversal) <==>
      && raw != "" && '\0' !in raw && !IsAbs(raw) && !EndsWithSlash(raw)
      && Climbs(0, Split(raw))
  {
    if raw != "" && !IsAbs(raw) {
      DotDotLeads(raw);
      SplitHasNoSlash(raw);
      NormClimbs([], Split(raw));
    }
  }
}
