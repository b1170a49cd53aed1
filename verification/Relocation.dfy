/** How `do_hdimg` takes the target tree apart, one directory per mountpoint,
    and puts it together again around the creation of the images. */
module Relocation {
  import opened Fstab
  import opened Lists
  import opened Strings

  // File stands for everything that is not a directory.
  datatype Entry = Dir | File(content: string)

  type Tree = map<Path, Entry>

  const EMPTY_DIR: Tree := map[[] := Dir]

  /** All ancestors of an entry are directories of the tree. */
  ghost predicate WellFormed(t: Tree) {
    && [] in t && t[[]] == Dir
    && forall p, k | p in t && 0 <= k < |p| :: p[..k] in t && t[p[..k]] == Dir
  }

  predicate DotName(n: string) {
    n != "" && n[0] == '.'
  }

  /** `p` lies strictly below `m`. */
  predicate Under(m: Path, p: Path) {
    |m| < |p| && p[..|m|] == m
  }

  /** `p` is, or lies below, an entry that the glob `m`/`*` matches. */
  predicate Takes(m: Path, p: Path) {
    Under(m, p) && !DotName(p[|m|])
  }

  // ---------------------------------------------------------------- mkdir -p

  predicate Blocked(t: Tree, m: Path) {
    exists k: nat | k <= |m| :: m[..k] in t && t[m[..k]] != Dir
  }

  predicate Above(p: Path, m: Path) {
    |p| <= |m| && m[..|p|] == p
  }

  function Prefixes(m: Path): (r: set<Path>)
    ensures forall p :: p in r <==> Above(p, m)
  {
    if m == [] then {[]}
    else
      var init := m[..|m| - 1];
      assert forall p: Path | |p| < |m| :: m[..|p|] == init[..|p|];
      assert m[..|m|] == m;
      Prefixes(init) + {m}
  }

  function AllPrefixes(ms: set<Path>): (r: set<Path>)
    ensures forall p :: p in r <==> exists m :: m in ms && Above(p, m)
  {
    var r := set m, p | m in ms && p in Prefixes(m) :: p;
    assert forall m, p | m in ms && p in Prefixes(m) :: p in r;
    assert forall m, p | m in ms && Above(p, m) :: p in Prefixes(m);
    r
  }

  function AddDirs(t: Tree, m: Path): Tree {
    (map p | p in Prefixes(m) :: Dir) + t
  }

  /** `t` with the directories of all mountpoints and their ancestors. */
  function WithDirs(t: Tree, ms: set<Path>): Tree {
    (map p | p in AllPrefixes(ms) :: Dir) + t
  }

  lemma DirsOver(a: set<Path>, b: set<Path>, t: Tree)
    ensures (map p | p in a :: Dir) + ((map p | p in b :: Dir) + t) == (map p | p in a + b :: Dir) + t
  {
  }

  lemma WithOneMore(t: Tree, ms: set<Path>, m: Path)
    ensures AddDirs(WithDirs(t, ms), m) == WithDirs(t, ms + {m})
  {
    hide Above;
    forall p ensures p in AllPrefixes(ms + {m}) <==> p in AllPrefixes(ms) || p in Prefixes(m) {
      assert m in ms + {m};
    }
    assert AllPrefixes(ms + {m}) == Prefixes(m) + AllPrefixes(ms);
    DirsOver(Prefixes(m), AllPrefixes(ms), t);
  }

  lemma DirsDoNotBlock(t: Tree, ms: set<Path>, m: Path)
    ensures Blocked(WithDirs(t, ms), m) == Blocked(t, m)
  {
    assert forall p | p in WithDirs(t, ms) :: WithDirs(t, ms)[p] == if p in t then t[p] else Dir;
  }

  // ------------------------------------------------------------------ mv x/*

  /** Whether `mv` can give the child `c` of `x` its place below `d`: nothing
      is there yet, or a file replaces a file, or a directory replaces an
      empty directory. */
  predicate CanMove(src: Tree, x: Path, dst: Tree, d: Path, c: string) {
    && x + [c] in src
    && (d + [c] in dst ==>
          if src[x + [c]] == Dir
          then dst[d + [c]] == Dir && !(exists p | p in dst :: Under(d + [c], p))
          else dst[d + [c]] != Dir)
  }

  /** `p` leaves `src` when the children of `x` that `*` matches are moved. */
  predicate Moves(src: Tree, x: Path, dst: Tree, d: Path, p: Path) {
    Takes(x, p) && CanMove(src, x, dst, d, p[|x|])
  }

  function MvSource(src: Tree, x: Path, dst: Tree, d: Path): Tree {
    map p | p in src && !Moves(src, x, dst, d, p) :: src[p]
  }

  /** Paths below `d` at which entries of `src` arrive. */
  function Arrivals(src: Tree, x: Path, dst: Tree, d: Path): (r: set<Path>)
    ensures forall q :: q in r <==>
      Takes(d, q) && x + q[|d|..] in src && Moves(src, x, dst, d, x + q[|d|..])
  {
    var r := set p | p in src && Moves(src, x, dst, d, p) :: d + p[|x|..];
    assert forall q | Takes(d, q) && x + q[|d|..] in src && Moves(src, x, dst, d, x + q[|d|..]) ::
        q == d + (x + q[|d|..])[|x|..];
    assert forall p | p in src && Moves(src, x, dst, d, p) :: x + (d + p[|x|..])[|d|..] == p;
    r
  }

  function MvDest(src: Tree, x: Path, dst: Tree, d: Path): Tree {
    (map p | p in dst && !(Takes(d, p) && CanMove(src, x, dst, d, p[|d|])) :: dst[p])
    + (map q | q in Arrivals(src, x, dst, d) :: src[x + q[|d|..]])
  }

  /** No moved child meets an entry of the same name. */
  ghost predicate Free(src: Tree, x: Path, dst: Tree, d: Path) {
    forall c | x + [c] in src && !DotName(c) :: d + [c] !in dst
  }

  // ------------------------------------------------- where every file belongs

  datatype Home = InTarget | Below(mountpoint: Path)

  /** The deepest mountpoint that takes `p` away from the target tree. */
  function HomeOf(p: Path, ms: set<Path>): Home {
    HomeUpTo(p, ms, |p|)
  }

  function HomeUpTo(p: Path, ms: set<Path>, k: nat): Home
    requires k <= |p|
  {
    if k == 0 then InTarget
    else if p[..k - 1] in ms && !DotName(p[k - 1]) then Below(p[..k - 1])
    else HomeUpTo(p, ms, k - 1)
  }

  lemma {:induction false} HomeIsDeepestUpTo(p: Path, ms: set<Path>, k: nat)
    requires k <= |p|
    ensures match HomeUpTo(p, ms, k)
            case InTarget => forall n | n in ms && |n| < k :: !Takes(n, p)
            case Below(m) => m in ms && Takes(m, p) && forall n | n in ms && |n| < k && Takes(n, p) :: |n| <= |m|
  {
    if k > 0 {
      HomeIsDeepestUpTo(p, ms, k - 1);
      forall n | n in ms && |n| == k - 1 && Takes(n, p) ensures n == p[..k - 1] {}
    }
  }

  /** `HomeOf` is the longest mountpoint prefix whose next component is not a
      dot-name, and the target tree exactly if there is no such prefix. */
  lemma HomeIsDeepest(p: Path, ms: set<Path>)
    ensures match HomeOf(p, ms)
            case InTarget => forall n | n in ms :: !Takes(n, p)
            case Below(m) => m in ms && Takes(m, p) && forall n | n in ms && Takes(n, p) :: |n| <= |m|
  {
    HomeIsDeepestUpTo(p, ms, |p|);
  }

  lemma HomeWithShallower(p: Path, ms: set<Path>, m: Path)
    requires m !in ms && forall n | n in ms :: |m| <= |n|
    ensures HomeOf(p, ms + {m}) ==
            if HomeOf(p, ms) != InTarget then HomeOf(p, ms)
            else if Takes(m, p) then Below(m) else InTarget
  {
    HomeIsDeepest(p, ms);
    HomeIsDeepest(p, ms + {m});
  }

  /** `target` is what the mountpoints `ms` leave of `t`. */
  ghost predicate TargetIs(target: Tree, t: Tree, ms: set<Path>) {
    && (forall p :: p in target <==> p in t && HomeOf(p, ms) == InTarget)
    && (forall p | p in target :: target[p] == t[p])
  }

  /** `f` is the directory with the part of `t` that belongs to `m`. */
  ghost predicate DirIs(f: Tree, t: Tree, ms: set<Path>, m: Path) {
    && [] in f && f[[]] == Dir
    && (forall q | q != [] :: q in f <==> m + q in t && HomeOf(m + q, ms) == Below(m))
    && (forall q | q != [] && q in f :: f[q] == t[m + q])
  }

  // ---------------------------------------------------------- the three steps

  lemma MkdirKeepsWellFormed(t: Tree, m: Path)
    requires WellFormed(t) && !Blocked(t, m)
    ensures WellFormed(AddDirs(t, m))
  {
    var r := AddDirs(t, m);
    forall p, k | p in r && 0 <= k < |p| ensures p[..k] in r && r[p[..k]] == Dir {
      if p !in t {
        assert p[..k] == m[..k] && Above(m[..k], m);
      }
    }
  }

  lemma MkdirStep(target: Tree, t: Tree, ms: set<Path>, m: Path)
    requires TargetIs(target, t, ms)
    requires forall n | n in ms :: |m| <= |n|
    ensures Blocked(target, m) == Blocked(t, m)
    ensures TargetIs(AddDirs(target, m), AddDirs(t, m), ms)
  {
    forall p: Path | Above(p, m) ensures HomeOf(p, ms) == InTarget {
      HomeIsDeepest(p, ms);
    }
    hide HomeOf;
    assert forall k: nat | k <= |m| :: Above(m[..k], m);
  }

  lemma MkdirKeepsDir(f: Tree, t: Tree, ms: set<Path>, n: Path, m: Path)
    requires DirIs(f, t, ms, n) && |m| <= |n|
    ensures DirIs(f, AddDirs(t, m), ms, n)
  {
    forall q: Path | q != [] ensures !Above(n + q, m) {
    }
  }

  /** Every path below `x` comes with the child of `x` above it. */
  ghost predicate Closed(t: Tree, x: Path) {
    forall p | p in t && Under(x, p) :: x + [p[|x|]] in t
  }

  /** Without collisions a move takes exactly the entries below the matched
      children, and puts each of them at the same place below `d`. */
  lemma FreeMove(src: Tree, x: Path, dst: Tree, d: Path)
    requires Free(src, x, dst, d) && Closed(src, x) && Closed(dst, d)
    ensures forall p :: p in MvSource(src, x, dst, d) <==> p in src && !Takes(x, p)
    ensures forall q :: q in MvDest(src, x, dst, d) <==> q in dst || (Takes(d, q) && x + q[|d|..] in src)
    ensures forall q | q in MvDest(src, x, dst, d) ::
        if q in dst then MvDest(src, x, dst, d)[q] == dst[q]
        else Takes(d, q) && x + q[|d|..] in src && MvDest(src, x, dst, d)[q] == src[x + q[|d|..]]
  {
    assert forall p | p in src && Takes(x, p) :: CanMove(src, x, dst, d, p[|x|]);
    forall q | q in dst && Takes(d, q) ensures !CanMove(src, x, dst, d, q[|d|]) {
    }
    forall q | Takes(d, q) ensures Takes(x, x + q[|d|..]) && (x + q[|d|..])[|x|] == q[|d|] {
    }
  }

  lemma HomesWithShallower(ms: set<Path>, m: Path)
    requires m !in ms && forall n | n in ms :: |m| <= |n|
    ensures forall p :: HomeOf(p, ms + {m}) == InTarget <==> HomeOf(p, ms) == InTarget && !Takes(m, p)
    ensures forall p :: HomeOf(p, ms + {m}) == Below(m) <==> HomeOf(p, ms) == InTarget && Takes(m, p)
  {
    forall p
      ensures HomeOf(p, ms + {m}) == InTarget <==> HomeOf(p, ms) == InTarget && !Takes(m, p)
      ensures HomeOf(p, ms + {m}) == Below(m) <==> HomeOf(p, ms) == InTarget && Takes(m, p)
    {
      HomeWithShallower(p, ms, m);
      HomeIsDeepest(p, ms);
    }
  }

  /** The child of `m` above `p`; whoever takes it takes `p`. */
  function Child(m: Path, p: Path): (c: Path)
    requires Under(m, p)
    ensures |c| == |m| + 1 && c == p[..|m| + 1] && c == m + [p[|m|]]
    ensures forall n | Takes(n, c) :: Takes(n, p)
  {
    assert p[..|m| + 1] == p[..|m|] + [p[|m|]];
    p[..|m| + 1]
  }

  lemma ChildStays(t: Tree, ms: set<Path>, m: Path, p: Path)
    requires WellFormed(t) && p in t && Under(m, p)
    ensures Child(m, p) in t
    ensures HomeOf(p, ms) == InTarget ==> HomeOf(Child(m, p), ms) == InTarget
    ensures HomeOf(p, ms) == Below(m) ==> HomeOf(Child(m, p), ms) == Below(m)
  {
    var c := Child(m, p);
    if |c| == |p| {
      assert c == p;
    }
    HomeIsDeepest(p, ms);
    HomeIsDeepest(c, ms);
    assert Takes(m, c) <==> Takes(m, p);
  }

  lemma TargetIsClosed(target: Tree, t: Tree, ms: set<Path>, m: Path)
    requires WellFormed(t) && TargetIs(target, t, ms)
    ensures Closed(target, m)
  {
    forall p | p in target && Under(m, p) ensures m + [p[|m|]] in target {
      ChildStays(t, ms, m, p);
    }
  }

  lemma DirIsClosed(f: Tree, t: Tree, ms: set<Path>, m: Path)
    requires WellFormed(t) && DirIs(f, t, ms, m)
    ensures Closed(f, [])
  {
    forall q | q in f && Under([], q) ensures [] + [q[0]] in f {
      ChildStays(t, ms, m, m + q);
      assert Child(m, m + q) == m + ([] + [q[0]]);
    }
  }

  lemma Glue(m: Path, q: Path)
    ensures (m + q)[|m|..] == q && [] + q == q && q[0..] == q
    ensures Takes(m, m + q) <==> Takes([], q)
    ensures Takes(m, q) ==> m + q[|m|..] == q
  {
  }

  /** Moving out: the children of `m` go to its empty directory, and none of
      them meets a name there. */
  lemma MoveOutStep(target: Tree, t: Tree, ms: set<Path>, m: Path)
    requires WellFormed(t) && TargetIs(target, t, ms)
    requires m !in ms && forall n | n in ms :: |m| <= |n|
    ensures Free(target, m, EMPTY_DIR, [])
    ensures TargetIs(MvSource(target, m, EMPTY_DIR, []), t, ms + {m})
    ensures DirIs(MvDest(target, m, EMPTY_DIR, []), t, ms + {m}, m)
  {
    TargetIsClosed(target, t, ms, m);
    FreeMove(target, m, EMPTY_DIR, []);
    HomesWithShallower(ms, m);
    var f := MvDest(target, m, EMPTY_DIR, []);
    forall q: Path | q != []
      ensures q in f <==> m + q in t && HomeOf(m + q, ms + {m}) == Below(m)
      ensures q in f ==> f[q] == t[m + q]
    {
      Glue(m, q);
    }
  }

  lemma MoveOutKeepsDir(f: Tree, t: Tree, ms: set<Path>, m: Path, n: Path)
    requires n in ms && m !in ms && forall n | n in ms :: |m| <= |n|
    ensures DirIs(f, t, ms, n) <==> DirIs(f, t, ms + {m}, n)
  {
    forall q: Path ensures HomeOf(n + q, ms + {m}) == Below(n) <==> HomeOf(n + q, ms) == Below(n) {
      HomeWithShallower(n + q, ms, m);
    }
  }

  lemma MoveBackIsFree(target: Tree, f: Tree, t: Tree, ms: set<Path>, m: Path)
    requires TargetIs(target, t, ms) && DirIs(f, t, ms, m)
    ensures Free(f, [], target, m)
  {
    forall c | [] + [c] in f ensures m + [c] !in target {
      assert m + ([] + [c]) == m + [c];
    }
  }

  lemma MoveBackAt(target: Tree, f: Tree, t: Tree, ms: set<Path>, m: Path, p: Path)
    requires TargetIs(target, t, ms + {m}) && DirIs(f, t, ms + {m}, m)
    requires m !in ms && forall n | n in ms :: |m| <= |n|
    ensures p in target || (Takes(m, p) && p[|m|..] in f) <==> p in t && HomeOf(p, ms) == InTarget
    ensures p !in target && Takes(m, p) && p[|m|..] in f ==> f[p[|m|..]] == t[p]
  {
    HomeWithShallower(p, ms, m);
    HomeIsDeepest(p, ms);
    Glue(m, p);
  }

  lemma MoveBackFillsTarget(target: Tree, f: Tree, t: Tree, ms: set<Path>, m: Path)
    requires TargetIs(target, t, ms + {m}) && DirIs(f, t, ms + {m}, m)
    requires m !in ms && forall n | n in ms :: |m| <= |n|
    requires Free(f, [], target, m) && Closed(f, []) && Closed(target, m)
    ensures TargetIs(MvDest(f, [], target, m), t, ms)
  {
    var back := MvDest(f, [], target, m);
    forall p
      ensures p in back <==> p in t && HomeOf(p, ms) == InTarget
      ensures p in back ==> back[p] == t[p]
    {
      if Takes(m, p) {
        assert [] + p[|m|..] == p[|m|..];
      }
      MoveBackAt(target, f, t, ms, m, p);
      FreeMove(f, [], target, m);
    }
  }

  lemma MoveBackEmptiesDir(target: Tree, f: Tree, t: Tree, ms: set<Path>, m: Path)
    requires DirIs(f, t, ms, m)
    requires Free(f, [], target, m) && Closed(f, []) && Closed(target, m)
    ensures MvSource(f, [], target, m) == EMPTY_DIR
  {
    FreeMove(f, [], target, m);
    forall q | q in f ensures Takes([], q) <==> q != [] {
      Glue(m, q);
      HomeIsDeepest(m + q, ms);
    }
  }

  /** Moving back: nothing collides and the directory of `m` ends up empty. */
  lemma MoveBackStep(target: Tree, f: Tree, t: Tree, ms: set<Path>, m: Path)
    requires WellFormed(t) && TargetIs(target, t, ms + {m}) && DirIs(f, t, ms + {m}, m)
    requires m !in ms && forall n | n in ms :: |m| <= |n|
    ensures Free(f, [], target, m)
    ensures TargetIs(MvDest(f, [], target, m), t, ms)
    ensures MvSource(f, [], target, m) == EMPTY_DIR
  {
    MoveBackIsFree(target, f, t, ms + {m}, m);
    TargetIsClosed(target, t, ms + {m}, m);
    DirIsClosed(f, t, ms + {m}, m);
    MoveBackFillsTarget(target, f, t, ms, m);
    MoveBackEmptiesDir(target, f, t, ms + {m}, m);
  }

  lemma NothingToMove(src: Tree, x: Path, dst: Tree, d: Path)
    requires !exists p | p in src :: Under(x, p)
    requires Closed(dst, d)
    ensures MvSource(src, x, dst, d) == src
    ensures MvDest(src, x, dst, d) == dst
    ensures Free(src, x, dst, d)
  {
    forall c | x + [c] in src ensures false {
      assert Under(x, x + [c]);
    }
    FreeMove(src, x, dst, d);
    assert forall q | Takes(d, q) :: Under(x, x + q[|d|..]);
  }

  lemma NoMountpoints(t: Tree)
    ensures WithDirs(t, {}) == t && TargetIs(t, t, {})
    ensures forall target | TargetIs(target, t, {}) :: target == t
  {
    forall p ensures HomeOf(p, {}) == InTarget {
      HomeIsDeepest(p, {});
    }
  }

  lemma Shallowest(fslist: seq<string>, k: nat)
    requires k < |fslist| && Sorted(fslist) && Distinct(fslist)
    requires forall mp | mp in fslist :: Normal(mp)
    ensures Comps(fslist[k]) !in MountSet(fslist[k + 1..])
    ensures forall n | n in MountSet(fslist[k + 1..]) :: |Comps(fslist[k])| <= |n|
  {
    DepthIsComponentCount(fslist[k]);
    forall mp | mp in fslist[k + 1..]
      ensures Comps(mp) != Comps(fslist[k]) && |Comps(fslist[k])| <= |Comps(mp)|
    {
      DepthIsComponentCount(mp);
      CompsInjective(mp, fslist[k]);
    }
  }

  // ------------------------------------------------- all directories together

  function MountSet(mps: seq<string>): set<Path> {
    set mp | mp in mps :: Comps(mp)
  }

  ghost predicate IdsFor(ids: map<string, nat>, mps: seq<string>) {
    && (forall mp | mp in mps :: mp in ids && Normal(mp))
    && (forall a, b | a in mps && b in mps && ids[a] == ids[b] :: a == b)
  }

  /** The mountpoints `mps` are taken out of `t`: every path is in the
      directory of its home, and nothing else is in any directory. */
  ghost predicate Spread(target: Tree, dirs: map<nat, Tree>, ids: map<string, nat>, mps: seq<string>, t: Tree)
    requires IdsFor(ids, mps)
  {
    && TargetIs(target, t, MountSet(mps))
    && (forall mp | mp in mps :: ids[mp] in dirs && DirIs(dirs[ids[mp]], t, MountSet(mps), Comps(mp)))
    && (forall id | id in dirs && dirs[id] != EMPTY_DIR :: exists mp | mp in mps :: ids[mp] == id)
  }

  lemma MountSetCons(mp: string, rest: seq<string>)
    ensures MountSet([mp] + rest) == MountSet(rest) + {Comps(mp)}
  {
  }

  lemma SpreadNothing(t: Tree, dirs: map<nat, Tree>, ids: map<string, nat>, mps: seq<string>)
    requires mps == [] && forall id | id in dirs :: dirs[id] == EMPTY_DIR
    ensures IdsFor(ids, mps) && WithDirs(t, MountSet(mps)) == t
    ensures Spread(t, dirs, ids, mps, t)
  {
    NoMountpoints(t);
    assert MountSet(mps) == {};
  }

  lemma SpreadEnd(target: Tree, dirs: map<nat, Tree>, ids: map<string, nat>, mps: seq<string>, t: Tree)
    requires mps == [] && Spread(target, dirs, ids, mps, t)
    ensures target == t && forall id | id in dirs :: dirs[id] == EMPTY_DIR
  {
    NoMountpoints(t);
    assert MountSet(mps) == {};
  }

  lemma SpreadMkdir(target: Tree, dirs: map<nat, Tree>, ids: map<string, nat>, mps: seq<string>, t: Tree, m: Path)
    requires IdsFor(ids, mps) && Spread(target, dirs, ids, mps, t) && WellFormed(t)
    requires forall n | n in MountSet(mps) :: |m| <= |n|
    ensures Spread(AddDirs(target, m), dirs, ids, mps, AddDirs(t, m))
  {
    MkdirStep(target, t, MountSet(mps), m);
    forall mp | mp in mps ensures DirIs(dirs[ids[mp]], AddDirs(t, m), MountSet(mps), Comps(mp)) {
      MkdirKeepsDir(dirs[ids[mp]], t, MountSet(mps), Comps(mp), m);
    }
  }

  lemma SpreadOut(target: Tree, dirs: map<nat, Tree>, ids: map<string, nat>, mp: string, rest: seq<string>, t: Tree)
    requires IdsFor(ids, [mp] + rest) && IdsFor(ids, rest) && WellFormed(t)
    requires Spread(target, dirs, ids, rest, t)
    requires ids[mp] in dirs && dirs[ids[mp]] == EMPTY_DIR && mp !in rest
    requires Comps(mp) !in MountSet(rest) && forall n | n in MountSet(rest) :: |Comps(mp)| <= |n|
    ensures Free(target, Comps(mp), EMPTY_DIR, [])
    ensures Spread(MvSource(target, Comps(mp), EMPTY_DIR, []),
                   dirs[ids[mp] := MvDest(target, Comps(mp), EMPTY_DIR, [])], ids, [mp] + rest, t)
  {
    hide TargetIs, DirIs, MvSource, MvDest, Free, WellFormed, Comps, Normal;
    var ms, m := MountSet(rest), Comps(mp);
    MountSetCons(mp, rest);
    MoveOutStep(target, t, ms, m);
    forall n | n in rest ensures DirIs(dirs[ids[n]], t, ms + {m}, Comps(n)) && ids[n] != ids[mp] {
      MoveOutKeepsDir(dirs[ids[n]], t, ms, m, Comps(n));
      assert n in [mp] + rest && mp in [mp] + rest;
    }
    assert mp in [mp] + rest;
    forall n | n in rest ensures n in [mp] + rest {
    }
  }

  lemma SpreadBack(target: Tree, dirs: map<nat, Tree>, ids: map<string, nat>, mp: string, rest: seq<string>, t: Tree)
    requires IdsFor(ids, [mp] + rest) && IdsFor(ids, rest) && WellFormed(t)
    requires Spread(target, dirs, ids, [mp] + rest, t)
    requires Comps(mp) !in MountSet(rest) && forall n | n in MountSet(rest) :: |Comps(mp)| <= |n|
    requires mp !in rest
    ensures mp in [mp] + rest && ids[mp] in dirs && Closed(target, Comps(mp))
    ensures Free(dirs[ids[mp]], [], target, Comps(mp))
    ensures Spread(MvDest(dirs[ids[mp]], [], target, Comps(mp)),
                   dirs[ids[mp] := MvSource(dirs[ids[mp]], [], target, Comps(mp))], ids, rest, t)
  {
    hide TargetIs, DirIs, MvSource, MvDest, Free, WellFormed, Comps, Normal;
    var ms, m := MountSet(rest), Comps(mp);
    MountSetCons(mp, rest);
    assert mp in [mp] + rest;
    MoveBackStep(target, dirs[ids[mp]], t, ms, m);
    TargetIsClosed(target, t, ms + {m}, m);
    forall n | n in rest ensures n in [mp] + rest && DirIs(dirs[ids[n]], t, ms, Comps(n)) && ids[n] != ids[mp] {
      assert n in [mp] + rest;
      MoveOutKeepsDir(dirs[ids[n]], t, ms, m, Comps(n));
    }
  }

  // ----------------------------------------------------------------- do_hdimg

  /** The mountpoints in the order of their first registration. */
  function Firsts(mountpoints: seq<string>): seq<string> {
    if mountpoints == [] then []
    else
      var before := Firsts(Front(mountpoints));
      if Last(mountpoints) in before then before else before + [Last(mountpoints)]
  }

  /** In which order `do_hdimg` has them in its list. */
  function Visiting(mountpoints: seq<string>): seq<string> {
    SortByDepth(Firsts(mountpoints))
  }

  lemma {:induction false} FirstsElements(mountpoints: seq<string>)
    ensures forall mp :: mp in Firsts(mountpoints) <==> mp in mountpoints
  {
    if mountpoints != [] {
      FirstsElements(Front(mountpoints));
      assert mountpoints == Front(mountpoints) + [Last(mountpoints)];
    }
  }

  lemma SortedOrder(order: seq<string>, mountpoints: seq<string>)
    requires Distinct(order) && order == Firsts(mountpoints)
    ensures var fslist := SortByDepth(order);
            && Sorted(fslist) && Distinct(fslist)
            && (forall mp :: mp in fslist <==> mp in order)
            && (forall mp :: mp in fslist <==> mp in mountpoints)
  {
    hide Depth, Firsts, SortByDepth, Sorted, Distinct;
    var fslist := SortByDepth(order);
    FirstsElements(mountpoints);
    SortByDepthSorts(order);
    DistinctFromMultiset(order, fslist);
    forall mp ensures mp in fslist <==> mp in order {
      assert mp in fslist <==> mp in multiset(fslist);
      assert mp in order <==> mp in multiset(order);
    }
  }

  lemma SortedMounts(ids: map<string, nat>, order: seq<string>, mountpoints: seq<string>)
    requires Distinct(order) && order == Firsts(mountpoints)
    requires forall mp | mp in mountpoints :: Normal(mp)
    requires forall k :: 0 <= k < |order| ==> order[k] in ids && ids[order[k]] == k
    ensures var fslist := SortByDepth(order);
            && Sorted(fslist) && Distinct(fslist) && IdsFor(ids, fslist)
            && MountSet(fslist) == MountSet(mountpoints)
            && forall mp :: mp in fslist <==> mp in mountpoints
  {
    hide Depth, Normal, Comps, Firsts, SortByDepth, Sorted, Distinct;
    SortedOrder(order, mountpoints);
  }

  /** Behind this place no mountpoint of the list is blocked by a file; the one
      before it is, unless it is 0. */
  function StopIndex(t0: Tree, fslist: seq<string>): (k: nat)
    ensures k <= |fslist|
  {
    if fslist == [] then 0
    else if Blocked(t0, Comps(Last(fslist))) then |fslist|
    else StopIndex(t0, Front(fslist))
  }

  lemma {:induction false} StopIndexMeaning(t0: Tree, fslist: seq<string>)
    ensures var k := StopIndex(t0, fslist);
            && (forall j: nat | k <= j < |fslist| :: !Blocked(t0, Comps(fslist[j])))
            && (k > 0 ==> Blocked(t0, Comps(fslist[k - 1])))
  {
    hide Blocked, Comps;
    if fslist != [] {
      StopIndexMeaning(t0, Front(fslist));
    }
  }

  /** Exactly the mountpoints behind the blocked one are taken out. */
  ghost predicate PartlySpread(target: Tree, dirs: map<nat, Tree>, ids: map<string, nat>, fslist: seq<string>,
                               t0: Tree)
  {
    var rest := fslist[StopIndex(t0, fslist)..];
    StopIndex(t0, fslist) > 0 && IdsFor(ids, rest) && Spread(target, dirs, ids, rest, WithDirs(t0, MountSet(rest)))
  }

  lemma StopsHere(t0: Tree, fslist: seq<string>, k: nat)
    requires 0 < k <= |fslist| && Blocked(t0, Comps(fslist[k - 1]))
    requires forall mp | mp in fslist[k..] :: !Blocked(t0, Comps(mp))
    ensures StopIndex(t0, fslist) == k
  {
    hide Blocked, Comps, StopIndex;
    StopIndexMeaning(t0, fslist);
    forall j | k <= j < |fslist| ensures !Blocked(t0, Comps(fslist[j])) {
      assert fslist[j] == fslist[k..][j - k];
    }
  }

  lemma NoIds(ids: map<string, nat>)
    ensures IdSet(ids, []) == {}
  {
  }

  lemma HasId(ids: map<string, nat>, mps: seq<string>, mp: string)
    requires IdsFor(ids, mps) && mp in mps
    ensures mp in ids
  {
  }

  lemma IdsForNothing(ids: map<string, nat>)
    ensures IdsFor(ids, [])
  {
  }

  lemma IdsForSuffix(ids: map<string, nat>, fslist: seq<string>, k: nat)
    requires k < |fslist| && Distinct(fslist) && IdsFor(ids, fslist)
    ensures fslist[k..] == [fslist[k]] + fslist[k + 1..] && IdsFor(ids, fslist[k..])
    ensures IdsFor(ids, fslist[k + 1..]) && fslist[k] !in fslist[k + 1..]
    ensures fslist[k] in fslist[k..] && forall mp | mp in fslist :: Normal(mp)
  {
  }

  /** The fstab entries of `do_hdimg`: ids, and the mountpoints by depth. */
  method Register(mountpoints: seq<string>) returns (ids: map<string, nat>, fslist: seq<string>)
    requires forall mp | mp in mountpoints :: Normal(mp)
    ensures fslist == Visiting(mountpoints)
    ensures Sorted(fslist) && Distinct(fslist) && IdsFor(ids, fslist)
    ensures MountSet(fslist) == MountSet(mountpoints)
    ensures forall mp :: mp in fslist <==> mp in mountpoints
    ensures Numbered(ids, mountpoints)
  {
    hide Depth, Normal, Comps, MountSet, Sorted, SortByDepth, Distinct, IdsFor, Numbered;
    var mounts := new MountpointDict();
    assert mountpoints[..0] == [];
    for i := 0 to |mountpoints|
      invariant mounts.Valid()
      invariant mounts.order == Firsts(mountpoints[..i])
    {
      var e := new FstabEntry(mountpoints[i]);
      mounts.Register(e);
      assert Front(mountpoints[..i + 1]) == mountpoints[..i] && Last(mountpoints[..i + 1]) == mountpoints[i];
    }
    assert mountpoints[..|mountpoints|] == mountpoints;
    SortedMounts(mounts.ids, mounts.order, mountpoints);
    IsNumbered(mounts.ids, mounts.order, mountpoints);
    ids, fslist := mounts.ids, mounts.DepthList();
  }

  /** Every mountpoint has the number of its first registration as its id. */
  ghost predicate Numbered(ids: map<string, nat>, mountpoints: seq<string>) {
    && (forall mp :: mp in ids <==> mp in mountpoints)
    && forall k: nat | k < |Firsts(mountpoints)| ::
         Firsts(mountpoints)[k] in ids && ids[Firsts(mountpoints)[k]] == k
  }

  lemma IsNumbered(ids: map<string, nat>, order: seq<string>, mountpoints: seq<string>)
    requires order == Firsts(mountpoints) && forall mp :: mp in ids <==> mp in order
    requires forall k :: 0 <= k < |order| ==> order[k] in ids && ids[order[k]] == k
    ensures Numbered(ids, mountpoints)
  {
    FirstsElements(mountpoints);
  }

  function IdSet(ids: map<string, nat>, mps: seq<string>): set<nat> {
    set mp | mp in mps && mp in ids :: ids[mp]
  }

  lemma IdSetCons(ids: map<string, nat>, mp: string, rest: seq<string>)
    requires mp in ids
    ensures IdSet(ids, [mp] + rest) == IdSet(ids, rest) + {ids[mp]}
  {
    forall id ensures id in IdSet(ids, [mp] + rest) <==> id in IdSet(ids, rest) || id == ids[mp] {
      assert mp in [mp] + rest;
    }
  }

  lemma IdSetOfNumbered(ids: map<string, nat>, mountpoints: seq<string>, mps: seq<string>)
    requires Numbered(ids, mountpoints) && forall mp :: mp in mps <==> mp in mountpoints
    ensures forall id :: id in IdSet(ids, mps) <==> 0 <= id < |Firsts(mountpoints)|
  {
    hide Firsts;
    var order := Firsts(mountpoints);
    FirstsElements(mountpoints);
    forall id ensures id in IdSet(ids, mps) <==> 0 <= id < |order| {
      if id in IdSet(ids, mps) {
        var mp :| mp in mps && mp in ids && ids[mp] == id;
        var k :| 0 <= k < |order| && order[k] == mp;
      }
      if 0 <= id < |order| {
        assert order[id] in mps && ids[order[id]] == id;
      }
    }
  }

  // ------------------------------------------------------- what images are made from

  /** The target and the directories at some moment. */
  datatype View = View(target: Tree, dirs: map<nat, Tree>)

  /** `mp` is the longest mountpoint above `p` whose next component of `p` does not
      begin with a dot. */
  ghost predicate Owns(mountpoints: seq<string>, mp: string, p: Path) {
    && mp in mountpoints && Globs(Comps(mp), p)
    && forall n | n in mountpoints && Globs(Comps(n), p) :: |Comps(n)| <= |Comps(mp)|
  }

  predicate Globs(m: Path, p: Path) {
    |m| < |p| && p[..|m|] == m && (p[|m|] == "" || p[|m|][0] != '.')
  }

  /** Every path of `t` is in the directory of the mountpoint that owns it, or in
      the target if none does, and nothing else is anywhere. */
  ghost predicate InOwnPlaces(v: View, ids: map<string, nat>, mountpoints: seq<string>, t: Tree) {
    && (forall mp | mp in mountpoints :: mp in ids && ids[mp] in v.dirs)
    && (forall p :: p in v.target <==> p in t && forall mp | mp in mountpoints :: !Globs(Comps(mp), p))
    && (forall p | p in v.target :: v.target[p] == t[p])
    && (forall mp, q | mp in mountpoints && q != [] ::
          q in v.dirs[ids[mp]] <==> Comps(mp) + q in t && Owns(mountpoints, mp, Comps(mp) + q))
    && (forall mp, q | mp in mountpoints && q != [] && q in v.dirs[ids[mp]] ::
          v.dirs[ids[mp]][q] == t[Comps(mp) + q])
    && (forall id | id in v.dirs && v.dirs[id] != EMPTY_DIR :: exists mp | mp in mountpoints :: ids[mp] == id)
  }

  ghost predicate MadeFrom(v: View, mountpoints: seq<string>, t: Tree) {
    exists ids :: Numbered(ids, mountpoints) && InOwnPlaces(v, ids, mountpoints, t)
  }

  lemma GlobsIsTakes(m: Path, p: Path)
    ensures Globs(m, p) <==> Takes(m, p)
  {
  }

  lemma SamePrefix(m: Path, n: Path, p: Path)
    requires Globs(m, p) && Globs(n, p) && |m| == |n|
    ensures m == n
  {
  }

  /** The owner of a path is the mountpoint that is its home. */
  lemma OwnerIsHome(mountpoints: seq<string>, mp: string, p: Path)
    requires mp in mountpoints
    ensures Owns(mountpoints, mp, p) <==> HomeOf(p, MountSet(mountpoints)) == Below(Comps(mp))
  {
    hide Takes, Globs, Comps, HomeOf;
    var ms := MountSet(mountpoints);
    HomeIsDeepest(p, ms);
    forall m ensures Globs(m, p) <==> Takes(m, p) {
      GlobsIsTakes(m, p);
    }
    assert Comps(mp) in ms;
    if Owns(mountpoints, mp, p) {
      var m := HomeOf(p, ms).mountpoint;
      var n :| n in mountpoints && Comps(n) == m;
      SamePrefix(Comps(mp), m, p);
    }
  }

  lemma NoOwnerIsTarget(mountpoints: seq<string>, p: Path)
    ensures HomeOf(p, MountSet(mountpoints)) == InTarget <==> forall mp | mp in mountpoints :: !Globs(Comps(mp), p)
  {
    hide Takes, Globs, Comps, HomeOf;
    var ms := MountSet(mountpoints);
    HomeIsDeepest(p, ms);
    forall m ensures Globs(m, p) <==> Takes(m, p) {
      GlobsIsTakes(m, p);
    }
    forall mp | mp in mountpoints ensures Comps(mp) in ms {
    }
  }

  lemma SpreadIsInOwnPlaces(v: View, ids: map<string, nat>, mountpoints: seq<string>, fslist: seq<string>, t: Tree)
    requires forall mp :: mp in fslist <==> mp in mountpoints
    requires IdsFor(ids, fslist) && Spread(v.target, v.dirs, ids, fslist, t) && Numbered(ids, mountpoints)
    ensures MadeFrom(v, mountpoints, t)
  {
    hide Globs, Owns, Comps, HomeOf, Normal, Firsts, Numbered;
    var ms := MountSet(mountpoints);
    assert MountSet(fslist) == ms;
    forall p ensures HomeOf(p, ms) == InTarget <==> forall mp | mp in mountpoints :: !Globs(Comps(mp), p) {
      NoOwnerIsTarget(mountpoints, p);
    }
    forall mp, p | mp in mountpoints
      ensures Owns(mountpoints, mp, p) <==> HomeOf(p, ms) == Below(Comps(mp))
    {
      OwnerIsHome(mountpoints, mp, p);
    }
    assert InOwnPlaces(v, ids, mountpoints, t);
  }

  lemma WithDirsMeaning(t: Tree, mountpoints: seq<string>, p: Path)
    ensures var r := WithDirs(t, MountSet(mountpoints));
            && (p in r <==> p in t || exists mp | mp in mountpoints :: Above(p, Comps(mp)))
            && (p in t ==> r[p] == t[p]) && (p in r && p !in t ==> r[p] == Dir)
  {
    hide Comps, Above;
    if mp :| mp in mountpoints && Above(p, Comps(mp)) {
      assert Comps(mp) in MountSet(mountpoints);
    }
  }

  /** What a blocked mountpoint leaves behind. */
  ghost predicate LeftSpread(target: Tree, dirs: map<nat, Tree>, mountpoints: seq<string>, t0: Tree) {
    exists ids :: PartlySpread(target, dirs, ids, Visiting(mountpoints), t0)
  }

  lemma LeavesSpread(target: Tree, dirs: map<nat, Tree>, ids: map<string, nat>, mountpoints: seq<string>, t0: Tree)
    requires PartlySpread(target, dirs, ids, Visiting(mountpoints), t0)
    ensures LeftSpread(target, dirs, mountpoints, t0)
  {
  }

  datatype Outcome = Finished | ImagesFailed | MkdirFailed

  /** The target root filesystem and the `filesystems/<id>` directories beside it. */
  class Workspace {
    var target: Tree
    var dirs: map<nat, Tree>
    var views: seq<View>       // what images were made from so far
    ghost var collisions: nat  // moves so far that met an existing name

    constructor (target: Tree)
      ensures this.target == target && dirs == map[] && views == [] && collisions == 0
    {
      this.target, dirs, views, collisions := target, map[], [], 0;
    }

    /** The images are made from the trees as they are; this may raise. */
    method MakeImages(raise: bool) returns (ok: bool)
      modifies this`views
      ensures views == old(views) + [View(target, dirs)] && ok == !raise
    {
      views := views + [View(target, dirs)];
      ok := !raise;
    }

    method MakeDir(m: Path) returns (ok: bool)
      modifies this`target
      ensures ok == !Blocked(old(target), m)
      ensures target == if ok then AddDirs(old(target), m) else old(target)
    {
      ok := !Blocked(target, m);
      if ok {
        target := AddDirs(target, m);
      }
    }

    method MoveOut(m: Path, id: nat)
      requires id in dirs
      modifies this`target, this`dirs, this`collisions
      ensures target == MvSource(old(target), m, old(dirs)[id], [])
      ensures dirs == old(dirs)[id := MvDest(old(target), m, old(dirs)[id], [])]
      ensures collisions == old(collisions) + if Free(old(target), m, old(dirs)[id], []) then 0 else 1
    {
      collisions := collisions + if Free(target, m, dirs[id], []) then 0 else 1;
      target, dirs := MvSource(target, m, dirs[id], []), dirs[id := MvDest(target, m, dirs[id], [])];
    }

    method MoveBack(m: Path, id: nat)
      requires id in dirs
      modifies this`target, this`dirs, this`collisions
      ensures target == MvDest(old(dirs)[id], [], old(target), m)
      ensures dirs == old(dirs)[id := MvSource(old(dirs)[id], [], old(target), m)]
      ensures collisions == old(collisions) + if Free(old(dirs)[id], [], old(target), m) then 0 else 1
    {
      collisions := collisions + if Free(dirs[id], [], target, m) then 0 else 1;
      target, dirs := MvDest(dirs[id], [], target, m), dirs[id := MvSource(dirs[id], [], target, m)];
    }

    /** One mountpoint of the first loop; `rest` are the deeper ones that
        are already taken out of `t0`. */
    method TakeOut(mp: string, ids: map<string, nat>, ghost rest: seq<string>, ghost t0: Tree) returns (ok: bool)
      requires IdsFor(ids, [mp] + rest) && IdsFor(ids, rest) && mp in [mp] + rest && mp !in rest
      requires Comps(mp) !in MountSet(rest) && forall n | n in MountSet(rest) :: |Comps(mp)| <= |n|
      requires WellFormed(WithDirs(t0, MountSet(rest)))
      requires Spread(target, dirs, ids, rest, WithDirs(t0, MountSet(rest)))
      modifies this`target, this`dirs, this`collisions
      ensures ok == !Blocked(t0, Comps(mp)) && collisions == old(collisions)
      ensures dirs.Keys == old(dirs.Keys) + {ids[mp]}
      ensures !ok ==> Spread(target, dirs, ids, rest, WithDirs(t0, MountSet(rest)))
      ensures ok ==> WellFormed(WithDirs(t0, MountSet([mp] + rest)))
      ensures ok ==> Spread(target, dirs, ids, [mp] + rest, WithDirs(t0, MountSet([mp] + rest)))
    {
      hide TargetIs, DirIs, MvSource, MvDest, Free, WellFormed, Comps, Normal, WithDirs, AddDirs, Blocked;
      var m, id := Comps(mp), ids[mp];
      ghost var ms := MountSet(rest);
      ghost var t := WithDirs(t0, ms);
      MountSetCons(mp, rest);
      DirsDoNotBlock(t0, ms, m);
      WithOneMore(t0, ms, m);
      MkdirStep(target, t, ms, m);
      forall n | n in rest ensures ids[n] != id {
        assert n in [mp] + rest;
      }
      if id !in dirs {
        dirs := dirs[id := EMPTY_DIR];
      }
      assert Spread(target, dirs, ids, rest, t);
      ok := MakeDir(m);
      if ok {
        MkdirKeepsWellFormed(t, m);
        SpreadMkdir(old(target), dirs, ids, rest, t, m);
        SpreadOut(target, dirs, ids, mp, rest, AddDirs(t, m));
        if exists p | p in target :: Under(m, p) {
          MoveOut(m, id);
        } else {
          NothingToMove(target, m, dirs[id], []);
        }
      }
    }

    /** First half of `do_hdimg`: every mountpoint, deepest first, gets its
        directories and gives its contents away. */
    method TakeApart(ids: map<string, nat>, fslist: seq<string>) returns (ok: bool)
      requires WellFormed(target) && forall id | id in dirs :: dirs[id] == EMPTY_DIR
      requires Sorted(fslist) && Distinct(fslist) && IdsFor(ids, fslist)
      modifies this`target, this`dirs, this`collisions
      ensures ok ==> dirs.Keys == old(dirs.Keys) + IdSet(ids, fslist)
      ensures ok <==> forall mp | mp in fslist :: !Blocked(old(target), Comps(mp))
      ensures ok ==> WellFormed(WithDirs(old(target), MountSet(fslist)))
      ensures ok ==> Spread(target, dirs, ids, fslist, WithDirs(old(target), MountSet(fslist)))
      ensures !ok ==> PartlySpread(target, dirs, ids, fslist, old(target))
      ensures collisions == old(collisions)
    {
      hide Spread, WellFormed, Comps, Normal, WithDirs, Blocked, Depth, MountSet, Sorted, Distinct, IdsFor, IdSet;
      assert IdSet(ids, fslist[|fslist|..]) == {} by { NoIds(ids); }
      var k := |fslist|;
      IdsForNothing(ids);
      SpreadNothing(target, dirs, ids, fslist[k..]);
      while k > 0
        invariant 0 <= k <= |fslist| && IdsFor(ids, fslist[k..])
        invariant WellFormed(WithDirs(old(target), MountSet(fslist[k..])))
        invariant Spread(target, dirs, ids, fslist[k..], WithDirs(old(target), MountSet(fslist[k..])))
        invariant forall mp | mp in fslist[k..] :: !Blocked(old(target), Comps(mp))
        invariant collisions == old(collisions) && dirs.Keys == old(dirs.Keys) + IdSet(ids, fslist[k..])
      {
        IdsForSuffix(ids, fslist, k - 1);
        HasId(ids, fslist[k - 1..], fslist[k - 1]);
        IdSetCons(ids, fslist[k - 1], fslist[k..]);
        Shallowest(fslist, k - 1);
        ok := TakeOut(fslist[k - 1], ids, fslist[k..], old(target));
        if !ok {
          StopsHere(old(target), fslist, k);
          return;
        }
        k := k - 1;
      }
      assert fslist[0..] == fslist;
      ok := true;
    }

    /** Second half: every mountpoint, shallowest first, gets its contents back. */
    method PutBack(ids: map<string, nat>, fslist: seq<string>, ghost t: Tree)
      requires Sorted(fslist) && Distinct(fslist) && IdsFor(ids, fslist) && WellFormed(t)
      requires Spread(target, dirs, ids, fslist, t)
      modifies this`target, this`dirs, this`collisions
      ensures dirs.Keys == old(dirs.Keys)
      ensures target == t && (forall id | id in dirs :: dirs[id] == EMPTY_DIR)
      ensures collisions == old(collisions)
    {
      hide TargetIs, DirIs, MvSource, MvDest, Free, Closed, WellFormed, Comps, Normal, Depth, Spread;
      assert fslist[0..] == fslist;
      for k := 0 to |fslist|
        invariant Spread(target, dirs, ids, fslist[k..], t)
        invariant collisions == old(collisions) && dirs.Keys == old(dirs.Keys)
      {
        var mp, rest := fslist[k], fslist[k + 1..];
        var m, id := Comps(mp), ids[mp];
        assert fslist[k..] == [mp] + rest;
        Shallowest(fslist, k);
        SpreadBack(target, dirs, ids, mp, rest, t);
        if exists p | p in dirs[id] :: Under([], p) {
          MoveBack(m, id);
        } else {
          NothingToMove(dirs[id], [], target, m);
          assert dirs == dirs[id := dirs[id]];
        }
      }
      SpreadEnd(target, dirs, ids, fslist[|fslist|..], t);
    }

    /** `do_hdimg`: images are made exactly once, from the trees with every path in
        its own place, and afterwards everything is back. */
    method DoHdimg(mountpoints: seq<string>, imagesRaise: bool) returns (r: Outcome)
      requires WellFormed(target) && forall id | id in dirs :: dirs[id] == EMPTY_DIR
      requires forall mp | mp in mountpoints :: Normal(mp)
      modifies this
      ensures r == MkdirFailed <==> exists mp | mp in mountpoints :: Blocked(old(target), Comps(mp))
      ensures r == MkdirFailed ==> LeftSpread(target, dirs, mountpoints, old(target))
      ensures r == ImagesFailed ==> imagesRaise
      ensures r == Finished ==> !imagesRaise
      ensures r != MkdirFailed ==>
        && target == WithDirs(old(target), MountSet(mountpoints))
        && (forall id | id in dirs :: dirs[id] == EMPTY_DIR)
        && (forall id :: id in dirs <==> id in old(dirs) || 0 <= id < |Firsts(mountpoints)|)
      ensures r == MkdirFailed ==> views == old(views)
      ensures r != MkdirFailed ==>
        && |views| == |old(views)| + 1 && views[..|old(views)|] == old(views)
        && MadeFrom(views[|old(views)|], mountpoints, WithDirs(old(target), MountSet(mountpoints)))
      ensures collisions == old(collisions)
    {
      hide *;
      var ids, fslist := Register(mountpoints);
      var ok := TakeApart(ids, fslist);
      if !ok {
        LeavesSpread(target, dirs, ids, mountpoints, old(target));
        return MkdirFailed;
      }
      SpreadIsInOwnPlaces(View(target, dirs), ids, mountpoints, fslist, WithDirs(old(target), MountSet(fslist)));
      IdSetOfNumbered(ids, mountpoints, fslist);
      var made := MakeImages(imagesRaise);
      PutBack(ids, fslist, WithDirs(old(target), MountSet(fslist)));
      return if made then Finished else ImagesFailed;
    }
  }

  // ------------------------------------------------- what a failure leaves behind

  /** The deeper mountpoints of a list of which one is blocked by a file. */
  function TakenOut(mountpoints: seq<string>, t0: Tree): seq<string> {
    Visiting(mountpoints)[StopIndex(t0, Visiting(mountpoints))..]
  }

  /** After a failure the target still has all its files exactly if there is
      nothing below the mountpoints that were taken out before, except below
      dot-names. */
  lemma FailureKeepsFiles(target: Tree, dirs: map<nat, Tree>, mountpoints: seq<string>, t0: Tree)
    requires LeftSpread(target, dirs, mountpoints, t0)
    ensures (forall p | p in t0 :: p in target && target[p] == t0[p])
            <==> forall p, m | p in t0 && m in MountSet(TakenOut(mountpoints, t0)) :: !Takes(m, p)
  {
    hide MountSet, Takes, StopIndex, Visiting;
    var ids :| PartlySpread(target, dirs, ids, Visiting(mountpoints), t0);
    var rest := TakenOut(mountpoints, t0);
    var ms := MountSet(rest);
    SpreadTarget(target, dirs, ids, rest, WithDirs(t0, ms));
    forall p | p in t0
      ensures p in target && target[p] == t0[p] <==> forall m | m in ms :: !Takes(m, p)
    {
      HomeIsDeepest(p, ms);
      assert p in WithDirs(t0, ms) && WithDirs(t0, ms)[p] == t0[p];
    }
  }

  lemma SpreadTarget(target: Tree, dirs: map<nat, Tree>, ids: map<string, nat>, mps: seq<string>, t: Tree)
    requires IdsFor(ids, mps) && Spread(target, dirs, ids, mps, t)
    ensures forall p :: p in target <==> p in t && HomeOf(p, MountSet(mps)) == InTarget
    ensures forall p | p in target :: target[p] == t[p]
  {
  }

  function AbsPath(comps: Path): string {
    Join([""] + comps, '/')
  }

  lemma NormalPath(comps: Path)
    requires comps != [] && forall n | n in comps :: ValidName(n)
    ensures Normal(AbsPath(comps)) && Comps(AbsPath(comps)) == comps && Depth(AbsPath(comps)) == |comps|
  {
    SplitJoin([""] + comps, '/');
    JoinEndsInName(comps);
    assert AbsPath(comps) != "/";
    DepthIsComponentCount(AbsPath(comps));
  }

  /** A target with the file `x/y/f` and the file `b`. */
  function SmallTree(x: string, y: string, f: string, b: string): Tree {
    map[[] := Dir, [x] := Dir, [x, y] := Dir, [x, y, f] := File(""), [b] := File("")]
  }

  lemma SmallTreeIsFine(x: string, y: string, f: string, b: string)
    requires x != b
    ensures var t0 := SmallTree(x, y, f, b);
            WellFormed(t0) && Blocked(t0, [b]) && !Blocked(t0, [x, y]) && [x, y, f] in t0
  {
    assert [b][..1] == [b];
    assert [x, y][..0] == [] && [x, y][..1] == [x] && [x, y][..2] == [x, y];
    assert [x, y, f][..1] == [x] && [x, y, f][..2] == [x, y];
  }

  lemma FirstsOfTwo(a: string, b: string)
    requires a != b
    ensures Firsts([a, b]) == [a, b]
  {
    assert Front([a]) == [] && Front([a, b]) == [a];
    assert Firsts([a]) == [a];
  }

  lemma DeepIsSecond(deep: string, shallow: string)
    requires Depth(shallow) < Depth(deep)
    ensures Visiting([deep, shallow]) == [shallow, deep]
  {
    hide Depth;
    FirstsOfTwo(deep, shallow);
    hide Firsts;
    assert [deep, shallow][..1] == [deep];
    assert SortByDepth([deep]) == [deep];
  }

  lemma OneIsTakenOut(t0: Tree, deep: string, shallow: string)
    requires Blocked(t0, Comps(shallow)) && !Blocked(t0, Comps(deep)) && Depth(shallow) < Depth(deep)
    ensures TakenOut([deep, shallow], t0) == [deep]
  {
    hide Blocked, Comps, Depth, Visiting;
    DeepIsSecond(deep, shallow);
    StopsHere(t0, [shallow, deep], 1);
  }

  lemma TakenFileIsOutside(target: Tree, dirs: map<nat, Tree>, mountpoints: seq<string>, t0: Tree, mp: string,
                           p: Path)
    requires LeftSpread(target, dirs, mountpoints, t0)
    requires TakenOut(mountpoints, t0) == [mp] && Takes(Comps(mp), p)
    ensures p !in target
  {
    hide Takes, StopIndex, Visiting, Comps;
    var ids :| PartlySpread(target, dirs, ids, Visiting(mountpoints), t0);
    SpreadTarget(target, dirs, ids, [mp], WithDirs(t0, MountSet([mp])));
    HomeIsDeepest(p, MountSet([mp]));
    assert Comps(mp) in MountSet([mp]);
  }

  /** For example: `x/y` is a mountpoint with a file in it, and `b` is a
      mountpoint that is a file. The failure leaves the file of `x/y` outside. */
  lemma FilesAreLeftOutside(target: Tree, dirs: map<nat, Tree>, x: string, y: string, f: string, b: string)
    requires ValidName(x) && ValidName(y) && ValidName(f) && ValidName(b) && !DotName(f) && x != b
    ensures var t0, mountpoints := SmallTree(x, y, f, b), [AbsPath([x, y]), AbsPath([b])];
            && WellFormed(t0) && [x, y, f] in t0
            && Normal(mountpoints[0]) && Normal(mountpoints[1]) && Blocked(t0, Comps(mountpoints[1]))
            && (LeftSpread(target, dirs, mountpoints, t0) ==> [x, y, f] !in target)
  {
    hide AbsPath, Normal, Comps, Depth, SmallTree, Blocked, WellFormed, LeftSpread, TakenOut;
    var t0, deep, shallow := SmallTree(x, y, f, b), AbsPath([x, y]), AbsPath([b]);
    NormalPath([x, y]);
    NormalPath([b]);
    SmallTreeIsFine(x, y, f, b);
    OneIsTakenOut(t0, deep, shallow);
    if LeftSpread(target, dirs, [deep, shallow], t0) {
      TakenFileIsOutside(target, dirs, [deep, shallow], t0, deep, [x, y, f]);
    }
  }
}
