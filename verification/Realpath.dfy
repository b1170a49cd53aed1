/** `Filesystem.realpath`: the worklist that resolves symlinks inside a root,
    against a recursive resolver. */
module Realpath {
  import opened Lists
  import opened Strings

  /** A static tree: the target of the symlink at a path below the root, if
      there is a symlink. */
  type Links = Path -> LinkAt

  datatype LinkAt = NoLink | Link(target: string)

  predicate Skipped(c: string) {
    c == "" || c == "."
  }

  predicate IsAbs(target: string) {
    target != "" && target[0] == '/'
  }

  /** `path` and `following` are stacks with their top at the end;
      `realPath[0]` is the root itself. */
  datatype State = State(path: seq<string>, following: seq<Path>, realPath: Path, circular: bool)

  function Reverse(s: seq<string>): (r: seq<string>)
    ensures |r| == |s|
    ensures forall i | 0 <= i < |s| :: r[i] == s[|s| - 1 - i]
  {
    if s == [] then [] else Reverse(s[1..]) + [s[0]]
  }

  function DropLast<T>(s: seq<T>): seq<T> {
    if s == [] then s else s[..|s| - 1]
  }

  function Start(root: string, path: string): State {
    State(Reverse(Split(path, '/')), [], [root], false)
  }

  /** One pass through the loop body. */
  function Step(fs: Links, s: State): (r: State)
    requires s.path != [] && s.realPath != []
    ensures r.realPath != [] && r.realPath[0] == s.realPath[0]
    ensures s.circular ==> r.circular
  {
    var candidate := s.path[|s.path| - 1];
    var path := DropLast(s.path);
    if Skipped(candidate) then
      s.(path := path)
    else if candidate == ".." then
      State(path, DropLast(s.following),
            if |s.realPath| > 1 then DropLast(s.realPath) else s.realPath, s.circular)
    else
      var newPath := s.realPath[1..] + [candidate];
      if fs(newPath) == NoLink then
        State(path, DropLast(s.following), s.realPath + [candidate], s.circular)
      else if newPath in s.following then
        State(path, s.following, s.realPath + [candidate], true)
      else
        var link := fs(newPath).target;
        State(path + Reverse(Split(link, '/')), s.following + [newPath],
              if IsAbs(link) then s.realPath[..1] else s.realPath, s.circular)
  }

  /** What the components of a real path may be. */
  predicate Plain(c: string) {
    !Skipped(c) && c != ".." && '/' !in c
  }

  ghost predicate Inv(root: string, s: State) {
    && |s.realPath| >= 1 && s.realPath[0] == root
    && (forall c | c in s.realPath[1..] :: Plain(c))
    && (forall c | c in s.path :: '/' !in c)
  }

  lemma StartInv(root: string, path: string)
    ensures Inv(root, Start(root, path))
  {
  }

  /** The root stays the first element, and no empty, `.` or `..` component
      is ever appended. */
  lemma StepInv(fs: Links, root: string, s: State)
    requires Inv(root, s) && s.path != []
    ensures Inv(root, Step(fs, s))
  {
  }

  function Run(fs: Links, s: State, n: nat): (r: State)
    requires s.realPath != []
    ensures r.realPath != [] && r.realPath[0] == s.realPath[0]
    decreases n
  {
    if n == 0 || s.path == [] then s else
      Run(fs, Step(fs, s), n - 1)
  }

  lemma {:induction false} RunInv(fs: Links, root: string, s: State, n: nat)
    requires Inv(root, s)
    ensures Inv(root, Run(fs, s, n))
    decreases n
  {
    if n > 0 && s.path != [] {
      StepInv(fs, root, s);
      RunInv(fs, root, Step(fs, s), n - 1);
    }
  }

  /** The loop, for as many passes as `fuel` allows. */
  method RealPath(fs: Links, root: string, path: string, fuel: nat) returns (s: State)
    ensures s == Run(fs, Start(root, path), fuel)
    ensures Inv(root, s)
  {
    StartInv(root, path);
    s := Start(root, path);
    hide Step, Start;
    var n := fuel;
    while s.path != [] && n > 0
      invariant Inv(root, s)
      invariant Run(fs, s, n) == Run(fs, Start(root, path), fuel)
      decreases n
    {
      StepInv(fs, root, s);
      s := Step(fs, s);
      n := n - 1;
    }
  }

  // ------------------------------------------------------- reference resolver

  datatype Resolved = OutOfFuel | At(path: Path)

  /** Resolves the components `comps` one after the other, starting in the
      resolved directory `base`: a link is resolved completely before the next
      component is looked at. `fuel` bounds the links that are nested. */
  function Resolve(fs: Links, base: Path, comps: seq<string>, fuel: nat): Resolved
    decreases fuel, |comps|
  {
    if comps == [] then At(base)
    else
      var c, rest := comps[0], comps[1..];
      if Skipped(c) then Resolve(fs, base, rest, fuel)
      else if c == ".." then Resolve(fs, DropLast(base), rest, fuel)
      else if fs(base + [c]) == NoLink then Resolve(fs, base + [c], rest, fuel)
      else if fuel == 0 then OutOfFuel
      else
        var link := fs(base + [c]).target;
        match Resolve(fs, if IsAbs(link) then [] else base, Split(link, '/'), fuel - 1)
        case OutOfFuel => OutOfFuel
        case At(dir) => Resolve(fs, dir, rest, fuel)
  }

  lemma {:induction false} MoreFuel(fs: Links, base: Path, comps: seq<string>, fuel: nat)
    requires Resolve(fs, base, comps, fuel).At?
    ensures Resolve(fs, base, comps, fuel + 1) == Resolve(fs, base, comps, fuel)
    decreases fuel, |comps|
  {
    if comps != [] {
      var c, rest := comps[0], comps[1..];
      if Skipped(c) {
        MoreFuel(fs, base, rest, fuel);
      } else if c == ".." {
        MoreFuel(fs, DropLast(base), rest, fuel);
      } else if fs(base + [c]) == NoLink {
        MoreFuel(fs, base + [c], rest, fuel);
      } else {
        var link := fs(base + [c]).target;
        var start := if IsAbs(link) then [] else base;
        MoreFuel(fs, start, Split(link, '/'), fuel - 1);
        MoreFuel(fs, Resolve(fs, start, Split(link, '/'), fuel - 1).path, rest, fuel);
      }
    }
  }

  /** Resolving `a + b` is resolving `a` and then `b` from there. */
  lemma {:induction false} ResolveAppend(fs: Links, base: Path, a: seq<string>, b: seq<string>, fuel: nat)
    ensures Resolve(fs, base, a + b, fuel) ==
            match Resolve(fs, base, a, fuel)
            case OutOfFuel => OutOfFuel
            case At(dir) => Resolve(fs, dir, b, fuel)
    decreases |a|
  {
    if a == [] {
      assert a + b == b;
    } else {
      var c, rest := a[0], a[1..];
      assert (a + b)[0] == c && (a + b)[1..] == rest + b;
      if Skipped(c) {
        ResolveAppend(fs, base, rest, b, fuel);
      } else if c == ".." {
        ResolveAppend(fs, DropLast(base), rest, b, fuel);
      } else if fs(base + [c]) == NoLink {
        ResolveAppend(fs, base + [c], rest, b, fuel);
      } else if fuel > 0 {
        var link := fs(base + [c]).target;
        var r := Resolve(fs, if IsAbs(link) then [] else base, Split(link, '/'), fuel - 1);
        if r.At? {
          ResolveAppend(fs, r.path, rest, b, fuel);
        }
      }
    }
  }

  /** What is left to do, in reading order. */
  function Pending(s: State): seq<string> {
    Reverse(s.path)
  }

  lemma ReverseSnoc(s: seq<string>, c: string)
    ensures Reverse(s + [c]) == [c] + Reverse(s)
  {
  }

  lemma PendingPushed(path: seq<string>, comps: seq<string>)
    ensures Reverse(path + Reverse(comps)) == comps + Reverse(path)
  {
  }

  /** The resolver, put in the place of the loop in state `s`, ends at `r`. */
  ghost predicate Yields(fs: Links, s: State, fuel: nat, r: Path) {
    s.realPath != [] && Resolve(fs, s.realPath[1..], Pending(s), fuel) == At(r)
  }

  lemma StepIsSound(fs: Links, s: State, n: nat, r: Path)
    requires s.realPath != [] && s.path != [] && !Step(fs, s).circular
    requires Yields(fs, Step(fs, s), n, r)
    ensures Yields(fs, s, n + 1, r)
  {
    hide Split, Reverse;
    var s' := Step(fs, s);
    var base := s.realPath[1..];
    var c, path := s.path[|s.path| - 1], DropLast(s.path);
    assert s.path == path + [c];
    ReverseSnoc(path, c);
    assert Pending(s)[1..] == Reverse(path);
    if Skipped(c) {
      MoreFuel(fs, base, Reverse(path), n);
    } else if c == ".." {
      assert DropLast(base) == s'.realPath[1..];
      MoreFuel(fs, DropLast(base), Reverse(path), n);
    } else if fs(base + [c]) == NoLink {
      assert base + [c] == s'.realPath[1..];
      MoreFuel(fs, base + [c], Reverse(path), n);
    } else {
      var link := fs(base + [c]).target;
      var comps := Split(link, '/');
      PendingPushed(path, comps);
      assert s'.realPath[1..] == if IsAbs(link) then [] else base;
      ResolveAppend(fs, s'.realPath[1..], comps, Reverse(path), n);
      MoreFuel(fs, Resolve(fs, s'.realPath[1..], comps, n).path, Reverse(path), n);
    }
  }

  lemma EndYields(fs: Links, s: State, n: nat)
    requires s.realPath != [] && s.path == []
    ensures Yields(fs, s, n, s.realPath[1..])
  {
    assert Pending(s) == [];
  }

  /** Whenever the loop ends without the circular-link branch, its result is
      the one of the recursive resolver. */
  lemma {:induction false} LoopIsSound(fs: Links, s: State, n: nat)
    requires s.realPath != [] && Run(fs, s, n).path == [] && !Run(fs, s, n).circular
    ensures Yields(fs, s, n, Run(fs, s, n).realPath[1..])
    decreases n
  {
    hide Yields, Step;
    if s.path == [] {
      EndYields(fs, s, n);
    } else {
      LoopIsSound(fs, Step(fs, s), n - 1);
      if Step(fs, s).circular {
        StaysCircular(fs, Step(fs, s), n - 1);
      }
      StepIsSound(fs, s, n - 1, Run(fs, s, n).realPath[1..]);
    }
  }

  lemma {:induction false} StaysCircular(fs: Links, s: State, n: nat)
    requires s.realPath != [] && s.circular
    ensures Run(fs, s, n).circular
    decreases n
  {
    if n > 0 && s.path != [] {
      StaysCircular(fs, Step(fs, s), n - 1);
    }
  }

  lemma {:induction false} RunRun(fs: Links, s: State, m: nat, n: nat)
    requires s.realPath != []
    ensures Run(fs, Run(fs, s, m), n) == Run(fs, s, m + n)
    decreases m
  {
    hide Step;
    if m > 0 && s.path != [] {
      RunRun(fs, Step(fs, s), m - 1, n);
    }
  }

  predicate FollowsLink(fs: Links, base: Path, c: string) {
    !Skipped(c) && c != ".." && fs(base + [c]) != NoLink
  }

  /** Where a component leads that is not a link. */
  function Advance(base: Path, c: string): Path {
    if Skipped(c) then base else if c == ".." then DropLast(base) else base + [c]
  }

  lemma StepPlain(fs: Links, s: State, path: seq<string>, c: string)
    requires s.realPath != [] && s.path == path + [c] && !FollowsLink(fs, s.realPath[1..], c)
    ensures Step(fs, s).path == path && Step(fs, s).realPath[1..] == Advance(s.realPath[1..], c)
  {
    assert s.realPath == [s.realPath[0]] + s.realPath[1..];
  }

  lemma StepLink(fs: Links, s: State, path: seq<string>, c: string)
    requires s.realPath != [] && s.path == path + [c] && FollowsLink(fs, s.realPath[1..], c)
    ensures var s' := Step(fs, s);
            var link := fs(s.realPath[1..] + [c]).target;
            s'.circular || (s'.path == path + Reverse(Split(link, '/'))
                            && s'.realPath[1..] == if IsAbs(link) then [] else s.realPath[1..])
  {
    hide Split, Reverse;
  }

  /** The other direction: what the resolver resolves, the loop ends with,
      unless it takes the circular-link branch on the way. The `rest` below
      `comps` on the stack is left alone. */
  lemma {:induction false} LoopIsComplete(fs: Links, s: State, rest: seq<string>, comps: seq<string>, fuel: nat)
    returns (n: nat)
    requires s.realPath != [] && s.path == rest + Reverse(comps)
    requires Resolve(fs, s.realPath[1..], comps, fuel).At?
    ensures Run(fs, s, n).circular
      || (Run(fs, s, n).path == rest
          && Run(fs, s, n).realPath[1..] == Resolve(fs, s.realPath[1..], comps, fuel).path)
    decreases fuel, |comps|, 0
  {
    hide Split, Step;
    if comps == [] {
      n := 0;
      assert s.path == rest;
    } else {
      var base := s.realPath[1..];
      var c, more := comps[0], comps[1..];
      assert s.path == (rest + Reverse(more)) + [c];
      if !FollowsLink(fs, base, c) {
        StepPlain(fs, s, rest + Reverse(more), c);
        n := LoopIsComplete(fs, Step(fs, s), rest, more, fuel);
      } else {
        StepLink(fs, s, rest + Reverse(more), c);
        n := LinkIsComplete(fs, s, rest, c, more, fuel);
      }
      n := n + 1;
    }
  }

  lemma {:induction false} LinkIsComplete(fs: Links, s: State, rest: seq<string>, c: string, more: seq<string>,
                                          fuel: nat)
    returns (n: nat)
    requires s.realPath != [] && s.path == (rest + Reverse(more)) + [c] && FollowsLink(fs, s.realPath[1..], c)
    requires Resolve(fs, s.realPath[1..], [c] + more, fuel).At?
    ensures var e := Run(fs, Step(fs, s), n);
            e.circular || (e.path == rest && e.realPath[1..] == Resolve(fs, s.realPath[1..], [c] + more, fuel).path)
    decreases fuel, |more|, 1
  {
    hide Split, Step, Reverse;
    var s' := Step(fs, s);
    StepLink(fs, s, rest + Reverse(more), c);
    var link := fs(s.realPath[1..] + [c]).target;
    assert ([c] + more)[1..] == more;
    if s'.circular {
      n := 0;
    } else {
      var n1 := LoopIsComplete(fs, s', rest + Reverse(more), Split(link, '/'), fuel - 1);
      var mid := Run(fs, s', n1);
      var n2 := 0;
      if !mid.circular {
        n2 := LoopIsComplete(fs, mid, rest, more, fuel);
      }
      RunRun(fs, s', n1, n2);
      n := n1 + n2;
    }
  }

  ghost predicate EndsAt(fs: Links, s: State, r: Path)
    requires s.realPath != []
  {
    exists n: nat ::
      Run(fs, s, n).path == [] && !Run(fs, s, n).circular && Run(fs, s, n).realPath[1..] == r
  }

  ghost predicate TakesCircularBranch(fs: Links, s: State)
    requires s.realPath != []
  {
    exists n: nat :: Run(fs, s, n).circular
  }

  ghost predicate Resolves(fs: Links, comps: seq<string>, r: Path) {
    exists fuel: nat :: Resolve(fs, [], comps, fuel) == At(r)
  }

  lemma EndIsFinal(fs: Links, s: State, n: nat, m: nat)
    requires s.realPath != [] && Run(fs, s, n).path == [] && !Run(fs, s, n).circular
    ensures !Run(fs, s, m).circular
  {
    hide Step;
    if m <= n {
      RunRun(fs, s, m, n - m);
      if Run(fs, s, m).circular {
        StaysCircular(fs, Run(fs, s, m), n - m);
      }
    } else {
      RunRun(fs, s, n, m - n);
    }
  }

  lemma ReverseTwice(s: seq<string>)
    ensures Reverse(Reverse(s)) == s
  {
    hide Reverse;
  }

  lemma StartPending(root: string, path: string)
    ensures var s := Start(root, path);
            Pending(s) == Split(path, '/') && s.path == [] + Reverse(Split(path, '/')) && s.realPath[1..] == []
  {
    hide Split, Reverse;
    ReverseTwice(Split(path, '/'));
  }

  /** `realpath` ends with `r` without the circular-link branch exactly when
      the resolver resolves the path to `r` and that branch is never taken. */
  lemma RealpathIsResolve(fs: Links, root: string, path: string, r: Path)
    ensures EndsAt(fs, Start(root, path), r)
       <==> Resolves(fs, Split(path, '/'), r) && !TakesCircularBranch(fs, Start(root, path))
  {
    var s, comps := Start(root, path), Split(path, '/');
    StartPending(root, path);
    assert s.realPath != [];
    hide Start, Step, Run, Resolve, Split, Reverse;
    if EndsAt(fs, s, r) {
      var n: nat :| Run(fs, s, n).path == [] && !Run(fs, s, n).circular && Run(fs, s, n).realPath[1..] == r;
      LoopIsSound(fs, s, n);
      forall m: nat ensures !Run(fs, s, m).circular {
        EndIsFinal(fs, s, n, m);
      }
    } else if Resolves(fs, comps, r) {
      var fuel: nat :| Resolve(fs, [], comps, fuel) == At(r);
      var n := LoopIsComplete(fs, s, [], comps, fuel);
    }
  }

  // -------------------------------------------------------- no link is left

  ghost predicate NoLinkPrefix(fs: Links, base: Path) {
    forall k | 0 < k <= |base| :: fs(base[..k]) == NoLink
  }

  lemma StepKeepsNoLink(fs: Links, s: State)
    requires s.realPath != [] && s.path != [] && NoLinkPrefix(fs, s.realPath[1..])
    ensures Step(fs, s).circular || NoLinkPrefix(fs, Step(fs, s).realPath[1..])
  {
    hide Split, Reverse;
    var base, c, path := s.realPath[1..], s.path[|s.path| - 1], DropLast(s.path);
    assert s.path == path + [c];
    if FollowsLink(fs, base, c) {
      StepLink(fs, s, path, c);
    } else {
      StepPlain(fs, s, path, c);
      var after := Advance(base, c);
      forall k | 0 < k <= |after| ensures fs(after[..k]) == NoLink {
        if k <= |base| {
          assert after[..k] == base[..k];
        } else {
          assert after[..k] == base + [c];
        }
      }
    }
  }

  /** Without the circular-link branch no prefix of the result is a symlink. */
  lemma {:induction false} ResultHasNoLinks(fs: Links, s: State, n: nat)
    requires s.realPath != [] && NoLinkPrefix(fs, s.realPath[1..])
    requires !Run(fs, s, n).circular
    ensures NoLinkPrefix(fs, Run(fs, s, n).realPath[1..])
    decreases n
  {
    if n > 0 && s.path != [] {
      StepKeepsNoLink(fs, s);
      if Step(fs, s).circular {
        StaysCircular(fs, Step(fs, s), n - 1);
      }
      ResultHasNoLinks(fs, Step(fs, s), n - 1);
    }
  }

  // -------------------------------------------------------------- termination

  function RankOf(rank: string -> nat, c: string): nat {
    if Skipped(c) || c == ".." then 0 else rank(c)
  }

  /** Every link's target has at most `width` components, each of which is
      not named like a link or like one of lower rank. */
  ghost predicate Ranked(fs: Links, rank: string -> nat, width: nat) {
    forall p | p != [] && fs(p) != NoLink ::
      && |Split(fs(p).target, '/')| <= width
      && forall c | c in Split(fs(p).target, '/') :: RankOf(rank, c) < rank(p[|p| - 1])
  }

  function Weight(r: nat, width: nat): (w: nat)
    ensures w >= 1
  {
    if r == 0 then 1 else 1 + Weight(r - 1, width) * width
  }

  /** How many passes the stack can still cost. */
  function Measure(rank: string -> nat, width: nat, path: seq<string>): nat {
    if path == [] then 0
    else Measure(rank, width, DropLast(path)) + Weight(RankOf(rank, path[|path| - 1]), width)
  }

  lemma MulLe(a: nat, b: nat, w: nat)
    requires a <= b
    ensures a * w <= b * w
  {
  }

  lemma MulSucc(n: nat, w: nat)
    requires n >= 1
    ensures n * w == (n - 1) * w + w
  {
  }

  lemma {:induction false} WeightMonotone(r: nat, r': nat, width: nat)
    requires r <= r' && width >= 1
    ensures Weight(r, width) <= Weight(r', width)
  {
    if r > 0 {
      WeightMonotone(r - 1, r' - 1, width);
      MulLe(Weight(r - 1, width), Weight(r' - 1, width), width);
    } else if r' > 0 {
      WeightMonotone(0, r' - 1, width);
      MulLe(0, Weight(r' - 1, width), width);
    }
  }

  lemma {:induction false} MeasureAppend(rank: string -> nat, width: nat, a: seq<string>, b: seq<string>)
    ensures Measure(rank, width, a + b) == Measure(rank, width, a) + Measure(rank, width, b)
  {
    if b == [] {
      assert a + b == a;
    } else {
      MeasureAppend(rank, width, a, DropLast(b));
      assert DropLast(a + b) == a + DropLast(b);
    }
  }

  lemma {:induction false} LowRanksCostLittle(rank: string -> nat, width: nat, comps: seq<string>, r: nat)
    requires forall c | c in comps :: RankOf(rank, c) <= r
    requires width >= 1
    ensures Measure(rank, width, comps) <= |comps| * Weight(r, width)
  {
    if comps != [] {
      LowRanksCostLittle(rank, width, DropLast(comps), r);
      WeightMonotone(RankOf(rank, comps[|comps| - 1]), r, width);
      MulSucc(|comps|, Weight(r, width));
    }
  }

  lemma LinkCostsMore(fs: Links, rank: string -> nat, width: nat, p: Path)
    requires Ranked(fs, rank, width) && p != [] && fs(p) != NoLink
    ensures Measure(rank, width, Reverse(Split(fs(p).target, '/'))) < Weight(rank(p[|p| - 1]), width)
  {
    var comps, r := Split(fs(p).target, '/'), rank(p[|p| - 1]) - 1;
    assert |comps| <= width && comps[0] in comps;
    assert forall c | c in comps :: RankOf(rank, c) <= r;
    assert forall c | c in Reverse(comps) :: c in comps;
    assert Weight(r + 1, width) == 1 + Weight(r, width) * width;
    hide *;
    LowRanksCostLittle(rank, width, Reverse(comps), r);
    MulLe(|comps|, width, Weight(r, width));
    assert width * Weight(r, width) == Weight(r, width) * width;
  }

  lemma StepDecreases(fs: Links, rank: string -> nat, width: nat, s: State)
    requires Ranked(fs, rank, width) && s.realPath != [] && s.path != []
    ensures Measure(rank, width, Step(fs, s).path) < Measure(rank, width, s.path)
  {
    hide Split, Reverse, Ranked;
    var base, c, path := s.realPath[1..], s.path[|s.path| - 1], DropLast(s.path);
    assert s.path == path + [c];
    if FollowsLink(fs, base, c) && base + [c] !in s.following {
      LinkCostsMore(fs, rank, width, base + [c]);
      MeasureAppend(rank, width, path, Reverse(Split(fs(base + [c]).target, '/')));
    }
  }

  /** With ranked links the loop ends for every input, circular-link branch
      or not. */
  lemma {:induction false} RankedLinksTerminate(fs: Links, rank: string -> nat, width: nat, s: State, n: nat)
    requires Ranked(fs, rank, width) && s.realPath != []
    requires n >= Measure(rank, width, s.path)
    ensures Run(fs, s, n).path == []
    decreases n
  {
    hide Step, Ranked;
    if s.path != [] {
      StepDecreases(fs, rank, width, s);
      RankedLinksTerminate(fs, rank, width, Step(fs, s), n - 1);
    }
  }

  // ------------------------------------------- trees without false cycle alarms

  /** The first component that is neither empty nor `.`. */
  function FirstReal(comps: seq<string>): Option<string> {
    if comps == [] then None
    else if Skipped(comps[0]) then FirstReal(comps[1..])
    else Some(comps[0])
  }

  /** The same for a stack. */
  function Top(path: seq<string>): Option<string> {
    if path == [] then None
    else if Skipped(path[|path| - 1]) then Top(DropLast(path))
    else Some(path[|path| - 1])
  }

  lemma {:induction false} TopPushed(path: seq<string>, comps: seq<string>)
    requires FirstReal(comps).Some?
    ensures Top(path + Reverse(comps)) == FirstReal(comps)
  {
    hide Reverse;
    var c, rest := comps[0], comps[1..];
    assert comps == [c] + rest;
    ReverseCons(c, rest);
    assert path + Reverse(comps) == path + Reverse(rest) + [c];
    assert DropLast(path + Reverse(rest) + [c]) == path + Reverse(rest);
    if Skipped(c) {
      TopPushed(path, rest);
    }
  }

  lemma ReverseCons(c: string, rest: seq<string>)
    ensures Reverse([c] + rest) == Reverse(rest) + [c]
  {
    assert ([c] + rest)[1..] == rest;
  }

  /** Every link leads somewhere below its own directory. */
  ghost predicate Downward(fs: Links) {
    forall p | p != [] && fs(p) != NoLink ::
      var comps := Split(fs(p).target, '/');
      !IsAbs(fs(p).target) && FirstReal(comps).Some? && ".." !in comps
  }

  /** With ranked downward links, while the path has no `..`: a link that is
      being followed in the present directory has a higher rank than the next
      component. */
  ghost predicate Descending(rank: string -> nat, s: State) {
    && s.realPath != [] && !s.circular && ".." !in s.path
    && forall q | q in s.following ::
         && 0 < |q| <= |s.realPath|
         && (|q| == |s.realPath| ==> Top(s.path).Some? && rank(Top(s.path).value) < rank(q[|q| - 1]))
  }

  lemma StepDescends(fs: Links, rank: string -> nat, width: nat, s: State)
    requires Ranked(fs, rank, width) && Downward(fs) && Descending(rank, s) && s.path != []
    ensures Descending(rank, Step(fs, s))
  {
    hide Split, Reverse, Ranked, Downward;
    var base, c, path := s.realPath[1..], s.path[|s.path| - 1], DropLast(s.path);
    assert s.path == path + [c];
    if FollowsLink(fs, base, c) {
      var p := base + [c];
      var comps := Split(fs(p).target, '/');
      LinkDescends(fs, rank, width, p);
      TopPushed(path, comps);
      assert forall d | d in path + Reverse(comps) :: d in path || d in comps;
      assert p !in s.following;
    }
  }

  lemma LinkDescends(fs: Links, rank: string -> nat, width: nat, p: Path)
    requires Ranked(fs, rank, width) && Downward(fs) && p != [] && fs(p) != NoLink
    ensures var comps := Split(fs(p).target, '/');
            && !IsAbs(fs(p).target) && ".." !in comps
            && FirstReal(comps).Some? && rank(FirstReal(comps).value) < rank(p[|p| - 1])
  {
    hide Split;
    FirstRealIsThere(Split(fs(p).target, '/'));
  }

  lemma {:induction false} FirstRealIsThere(comps: seq<string>)
    ensures FirstReal(comps).Some? ==> FirstReal(comps).value in comps && !Skipped(FirstReal(comps).value)
  {
    if comps != [] && Skipped(comps[0]) {
      FirstRealIsThere(comps[1..]);
    }
  }

  lemma {:induction false} DescendingRun(fs: Links, rank: string -> nat, width: nat, s: State, n: nat)
    requires Ranked(fs, rank, width) && Downward(fs) && Descending(rank, s)
    ensures Descending(rank, Run(fs, s, n))
    decreases n
  {
    hide Step, Ranked, Downward;
    if n > 0 && s.path != [] {
      StepDescends(fs, rank, width, s);
      DescendingRun(fs, rank, width, Step(fs, s), n - 1);
    }
  }

  /** Where `realpath` ends if the circular-link branch is never taken. */
  lemma EndsWhereResolved(fs: Links, rank: string -> nat, width: nat, root: string, path: string)
    requires Ranked(fs, rank, width)
    requires forall n: nat :: !Run(fs, Start(root, path), n).circular
    ensures !TakesCircularBranch(fs, Start(root, path))
    ensures exists r :: EndsAt(fs, Start(root, path), r) && Resolves(fs, Split(path, '/'), r)
  {
    hide Ranked, Split, Run, Resolve;
    var s := Start(root, path);
    var n := Measure(rank, width, s.path);
    RankedLinksTerminate(fs, rank, width, s, n);
    var r := Run(fs, s, n).realPath[1..];
    assert EndsAt(fs, s, r);
    RealpathIsResolve(fs, root, path, r);
  }

  /** For ranked downward links and a path without `..`, the loop always ends,
      and where the resolver does. */
  lemma DownwardLinksResolve(fs: Links, rank: string -> nat, width: nat, root: string, path: string)
    requires Ranked(fs, rank, width) && Downward(fs) && ".." !in Split(path, '/')
    ensures !TakesCircularBranch(fs, Start(root, path))
    ensures exists r :: EndsAt(fs, Start(root, path), r) && Resolves(fs, Split(path, '/'), r)
  {
    hide Ranked, Downward, Split, Run, TakesCircularBranch, EndsAt, Resolves;
    var s := Start(root, path);
    assert Descending(rank, s) by {
      assert forall c | c in Reverse(Split(path, '/')) :: c in Split(path, '/');
    }
    forall n: nat ensures !Run(fs, s, n).circular {
      DescendingRun(fs, rank, width, s, n);
    }
    EndsWhereResolved(fs, rank, width, root, path);
  }

  predicate LeavesLinks(fs: Links, base: Path, c: Option<string>) {
    c.Some? && (c.value == ".." || fs(base + [c.value]) == NoLink)
  }

  /** No link's target begins with another link. */
  ghost predicate NoChains(fs: Links) {
    forall p | p != [] && fs(p) != NoLink ::
      LeavesLinks(fs, if IsAbs(fs(p).target) then [] else p[..|p| - 1], FirstReal(Split(fs(p).target, '/')))
  }

  /** Then at most one link is ever being followed, and the next component ends
      this. */
  ghost predicate AtMostOneFollowed(fs: Links, s: State) {
    && s.realPath != [] && !s.circular
    && (s.following == [] || (|s.following| == 1 && LeavesLinks(fs, s.realPath[1..], Top(s.path))))
  }

  lemma StepFollowsOne(fs: Links, s: State)
    requires NoChains(fs) && AtMostOneFollowed(fs, s) && s.path != []
    ensures AtMostOneFollowed(fs, Step(fs, s))
  {
    hide Split, Reverse, NoChains;
    var base, c, path := s.realPath[1..], s.path[|s.path| - 1], DropLast(s.path);
    assert s.path == path + [c];
    if FollowsLink(fs, base, c) {
      var p := base + [c];
      ChainlessLink(fs, p);
      assert p[..|p| - 1] == base;
      TopPushed(path, Split(fs(p).target, '/'));
      StepLink(fs, s, path, c);
      assert s.following == [];
    }
  }

  lemma ChainlessLink(fs: Links, p: Path)
    requires NoChains(fs) && p != [] && fs(p) != NoLink
    ensures LeavesLinks(fs, if IsAbs(fs(p).target) then [] else p[..|p| - 1], FirstReal(Split(fs(p).target, '/')))
  {
  }

  lemma {:induction false} OneFollowedRun(fs: Links, s: State, n: nat)
    requires NoChains(fs) && AtMostOneFollowed(fs, s)
    ensures AtMostOneFollowed(fs, Run(fs, s, n))
    decreases n
  {
    hide Step, NoChains;
    if n > 0 && s.path != [] {
      StepFollowsOne(fs, s);
      OneFollowedRun(fs, Step(fs, s), n - 1);
    }
  }

  /** For ranked links without chains the same holds for every path, with `..`
      and absolute links allowed. */
  lemma ChainlessLinksResolve(fs: Links, rank: string -> nat, width: nat, root: string, path: string)
    requires Ranked(fs, rank, width) && NoChains(fs)
    ensures !TakesCircularBranch(fs, Start(root, path))
    ensures exists r :: EndsAt(fs, Start(root, path), r) && Resolves(fs, Split(path, '/'), r)
  {
    hide Ranked, NoChains, Split, Run, TakesCircularBranch, EndsAt, Resolves;
    var s := Start(root, path);
    forall n: nat ensures !Run(fs, s, n).circular {
      OneFollowedRun(fs, s, n);
    }
    EndsWhereResolved(fs, rank, width, root, path);
  }

  // -------------------------------------------------------- links within a directory

  /** Every link's target is the name of something in the same directory. */
  ghost predicate Siblings(fs: Links) {
    forall p | p != [] && fs(p) != NoLink :: Plain(fs(p).target)
  }

  /** `names` holds the names of all links. */
  ghost predicate NamesOf(fs: Links, names: set<string>) {
    forall p | p != [] && fs(p) != NoLink :: p[|p| - 1] in names
  }

  /** The names under which no link of the directory is being followed. */
  function Unfollowed(names: set<string>, s: State): set<string>
    requires s.realPath != []
  {
    set n | n in names && s.realPath[1..] + [n] !in s.following
  }

  function PassesLeft(names: set<string>, s: State): nat
    requires s.realPath != []
  {
    |s.path| * (|names| + 1) + |Unfollowed(names, s)|
  }

  lemma SubsetSize<T>(a: set<T>, b: set<T>)
    requires a <= b
    ensures |a| <= |b|
  {
    assert b == a + (b - a);
  }

  lemma ShorterCostsLess(names: set<string>, s: State, t: State)
    requires s.realPath != [] && t.realPath != [] && |t.path| == |s.path| - 1
    ensures PassesLeft(names, t) < PassesLeft(names, s)
  {
    var m := |names| + 1;
    SubsetSize(Unfollowed(names, t), names);
    assert |s.path| * m == |t.path| * m + m;
  }

  lemma FollowingCostsLess(names: set<string>, s: State, t: State, c: string)
    requires s.realPath != [] && t.realPath == s.realPath && |t.path| == |s.path|
    requires c in names && s.realPath[1..] + [c] !in s.following
    requires t.following == s.following + [s.realPath[1..] + [c]]
    ensures PassesLeft(names, t) < PassesLeft(names, s)
  {
    var a, b := Unfollowed(names, t), Unfollowed(names, s);
    assert c in b && c !in a;
    assert a <= b - {c};
    SubsetSize(a, b - {c});
  }

  lemma SiblingStep(fs: Links, names: set<string>, s: State)
    requires Siblings(fs) && NamesOf(fs, names) && s.realPath != [] && s.path != []
    ensures PassesLeft(names, Step(fs, s)) < PassesLeft(names, s)
  {
    hide Split, Reverse, PassesLeft, Siblings, NamesOf;
    var base, c, path := s.realPath[1..], s.path[|s.path| - 1], DropLast(s.path);
    assert s.path == path + [c];
    if FollowsLink(fs, base, c) && base + [c] !in s.following {
      SiblingTarget(fs, names, base, c);
      assert s.realPath == [s.realPath[0]] + base;
      FollowingCostsLess(names, s, Step(fs, s), c);
    } else {
      ShorterCostsLess(names, s, Step(fs, s));
    }
  }

  lemma SiblingTarget(fs: Links, names: set<string>, base: Path, c: string)
    requires Siblings(fs) && NamesOf(fs, names) && fs(base + [c]) != NoLink
    ensures c in names && Plain(fs(base + [c]).target) && !IsAbs(fs(base + [c]).target)
    ensures Reverse(Split(fs(base + [c]).target, '/')) == [fs(base + [c]).target]
  {
    var link := fs(base + [c]).target;
    PendingOne(link);
    hide Split, Reverse;
    assert link[0] in link;
  }

  /** With links within their directories only, the loop ends for every path, whether
      there are cycles or not. */
  lemma {:induction false} SiblingLinksTerminate(fs: Links, names: set<string>, s: State, n: nat)
    requires Siblings(fs) && NamesOf(fs, names) && s.realPath != []
    requires n >= PassesLeft(names, s)
    ensures Run(fs, s, n).path == []
    decreases n
  {
    hide Step, Siblings, NamesOf;
    if s.path != [] {
      SiblingStep(fs, names, s);
      SiblingLinksTerminate(fs, names, Step(fs, s), n - 1);
    }
  }

  /** The `k`-th name that following the links from `c` leads to. */
  function Chained(fs: Links, base: Path, c: string, k: nat): string {
    if k == 0 then c
    else
      var before := Chained(fs, base, c, k - 1);
      if fs(base + [before]) == NoLink then before else fs(base + [before]).target
  }

  /** The links of the directory that are followed on the first `k` steps. */
  function Followed(fs: Links, base: Path, c: string, k: nat): seq<Path> {
    if k == 0 then [] else Followed(fs, base, c, k - 1) + [base + [Chained(fs, base, c, k - 1)]]
  }

  /** `x` is among the first `k` names. */
  ghost predicate Met(fs: Links, base: Path, c: string, k: nat, x: string) {
    exists i: nat | i < k :: Chained(fs, base, c, i) == x
  }

  lemma MetNext(fs: Links, base: Path, c: string, k: nat, x: string)
    ensures Met(fs, base, c, k + 1, x) <==> Met(fs, base, c, k, x) || Chained(fs, base, c, k) == x
  {
    hide Chained;
    if Met(fs, base, c, k, x) {
      var i: nat :| i < k && Chained(fs, base, c, i) == x;
      assert i < k + 1;
    }
  }

  lemma {:induction false} FollowedElements(fs: Links, base: Path, c: string, k: nat, x: string)
    ensures base + [x] in Followed(fs, base, c, k) <==> Met(fs, base, c, k, x)
  {
    hide Chained;
    if k > 0 {
      hide Met;
      FollowedElements(fs, base, c, k - 1, x);
      MetNext(fs, base, c, k - 1, x);
      var y := Chained(fs, base, c, k - 1);
      assert (base + [y])[|base|] == y && (base + [x])[|base|] == x;
    }
  }

  /** Up to the `k`-th name there are only links, all of them different. */
  ghost predicate OnTheWay(fs: Links, base: Path, c: string, k: nat) {
    forall i: nat | i < k ::
      fs(base + [Chained(fs, base, c, i)]) != NoLink && !Met(fs, base, c, i, Chained(fs, base, c, i))
  }

  /** The `j`-th name is where the way ends: no link, or the first one to be met
      again. */
  ghost predicate EndsWay(fs: Links, base: Path, c: string, j: nat) {
    && OnTheWay(fs, base, c, j)
    && (fs(base + [Chained(fs, base, c, j)]) == NoLink || Met(fs, base, c, j, Chained(fs, base, c, j)))
  }

  /** Nothing in the present directory is being followed. */
  ghost predicate Fresh(s: State) {
    s.realPath != [] && forall x :: s.realPath[1..] + [x] !in s.following
  }

  lemma PlainOnTheWay(fs: Links, names: set<string>, base: Path, c: string, k: nat)
    requires Siblings(fs) && NamesOf(fs, names) && Plain(c) && OnTheWay(fs, base, c, k)
    ensures Plain(Chained(fs, base, c, k))
  {
    hide Met, Plain, NamesOf;
    if k > 0 {
      var before := Chained(fs, base, c, k - 1);
      assert fs(base + [before]) != NoLink;
      SiblingTarget(fs, names, base, before);
    }
  }

  lemma EnterAt(fs: Links, rest: seq<string>, x: string, following: seq<Path>, walked: Path, met: bool)
    requires Plain(x) && walked != [] && fs(walked[1..] + [x]) == NoLink
    ensures var t := Step(fs, State(rest + [x], following, walked, met));
            t.path == rest && t.realPath == walked + [x] && t.circular == met
  {
    assert DropLast(rest + [x]) == rest;
  }

  lemma MeetAt(fs: Links, rest: seq<string>, x: string, following: seq<Path>, walked: Path, met: bool)
    requires Plain(x) && walked != [] && fs(walked[1..] + [x]) != NoLink && walked[1..] + [x] in following
    ensures Step(fs, State(rest + [x], following, walked, met)) == State(rest, following, walked + [x], true)
  {
    assert DropLast(rest + [x]) == rest;
  }

  lemma FollowAt(fs: Links, rest: seq<string>, x: string, following: seq<Path>, walked: Path, met: bool,
                 y: string)
    requires Plain(x) && walked != [] && fs(walked[1..] + [x]) == Link(y) && walked[1..] + [x] !in following
    requires !IsAbs(y) && Reverse(Split(y, '/')) == [y]
    ensures Step(fs, State(rest + [x], following, walked, met))
            == State(rest + [y], following + [walked[1..] + [x]], walked, met)
  {
    hide Split, Reverse;
    assert DropLast(rest + [x]) == rest;
  }

  /** The loop before the `k`-th name of the way is looked at. */
  function OnWay(fs: Links, s: State, rest: seq<string>, c: string, k: nat): State
    requires s.realPath != []
  {
    var base := s.realPath[1..];
    State(rest + [Chained(fs, base, c, k)], s.following + Followed(fs, base, c, k), s.realPath, s.circular)
  }

  /** Going on from the `k`-th name. */
  lemma NextOnWay(fs: Links, base: Path, c: string, k: nat)
    requires OnTheWay(fs, base, c, k) && !EndsWay(fs, base, c, k)
    ensures var x := Chained(fs, base, c, k);
            && fs(base + [x]) != NoLink && !Met(fs, base, c, k, x) && OnTheWay(fs, base, c, k + 1)
            && Chained(fs, base, c, k + 1) == fs(base + [x]).target
            && Followed(fs, base, c, k + 1) == Followed(fs, base, c, k) + [base + [x]]
  {
    hide Met;
  }

  lemma FreshIsNotFollowed(s: State, followed: seq<Path>, x: string)
    requires Fresh(s) && s.realPath[1..] + [x] !in followed
    ensures s.realPath[1..] + [x] !in s.following + followed
  {
  }

  lemma WayFollows(fs: Links, names: set<string>, s: State, rest: seq<string>, c: string, k: nat)
    requires Siblings(fs) && NamesOf(fs, names) && Plain(c) && Fresh(s) && OnTheWay(fs, s.realPath[1..], c, k)
    requires !EndsWay(fs, s.realPath[1..], c, k)
    ensures var base := s.realPath[1..];
            && Step(fs, OnWay(fs, s, rest, c, k)) == OnWay(fs, s, rest, c, k + 1)
            && OnTheWay(fs, base, c, k + 1) && Chained(fs, base, c, k) in names
  {
    hide *;
    FreshHasRoot(s);
    var base, x := s.realPath[1..], Chained(fs, s.realPath[1..], c, k);
    var followed := Followed(fs, base, c, k);
    NextOnWay(fs, base, c, k);
    PlainOnTheWay(fs, names, base, c, k);
    FollowedElements(fs, base, c, k, x);
    FreshIsNotFollowed(s, followed, x);
    SiblingTarget(fs, names, base, x);
    OnWayMeaning(fs, s, rest, c, k);
    OnWayMeaning(fs, s, rest, c, k + 1);
    FollowAt(fs, rest, x, s.following + followed, s.realPath, s.circular, fs(base + [x]).target);
    assert s.following + (followed + [base + [x]]) == s.following + followed + [base + [x]];
  }

  lemma OnWayMeaning(fs: Links, s: State, rest: seq<string>, c: string, k: nat)
    requires s.realPath != []
    ensures var base := s.realPath[1..];
            OnWay(fs, s, rest, c, k)
            == State(rest + [Chained(fs, base, c, k)], s.following + Followed(fs, base, c, k), s.realPath, s.circular)
  {
    hide Chained, Followed;
  }

  lemma WayStops(fs: Links, names: set<string>, s: State, rest: seq<string>, c: string, k: nat)
    requires Siblings(fs) && NamesOf(fs, names) && Plain(c) && Fresh(s) && EndsWay(fs, s.realPath[1..], c, k)
    ensures Arrives(fs, s, rest, c, k, Step(fs, OnWay(fs, s, rest, c, k)))
  {
    var base, x := s.realPath[1..], Chained(fs, s.realPath[1..], c, k);
    PlainOnTheWay(fs, names, base, c, k);
    FollowedElements(fs, base, c, k, x);
    hide Siblings, NamesOf, Step, Met, Plain, Followed, Chained;
    var following := s.following + Followed(fs, base, c, k);
    if fs(base + [x]) == NoLink {
      EnterAt(fs, rest, x, following, s.realPath, s.circular);
    } else {
      MeetAt(fs, rest, x, following, s.realPath, s.circular);
    }
  }

  /** `u` has gone the way from `s` to its `j`-th name. */
  ghost predicate Arrives(fs: Links, s: State, rest: seq<string>, c: string, j: nat, u: State)
    requires s.realPath != []
  {
    var r := Chained(fs, s.realPath[1..], c, j);
    && u.path == rest && u.realPath == s.realPath + [r]
    && (u.circular <==> s.circular || fs(s.realPath[1..] + [r]) != NoLink)
  }

  /** The names that are not met yet. */
  ghost predicate NotMet(fs: Links, base: Path, c: string, k: nat, names: set<string>, left: set<string>) {
    forall n :: n in left <==> n in names && !Met(fs, base, c, k, n)
  }

  lemma NotMetNext(fs: Links, base: Path, c: string, k: nat, names: set<string>, left: set<string>)
    requires NotMet(fs, base, c, k, names, left) && Chained(fs, base, c, k) in names
    requires !Met(fs, base, c, k, Chained(fs, base, c, k))
    ensures Chained(fs, base, c, k) in left
    ensures NotMet(fs, base, c, k + 1, names, left - {Chained(fs, base, c, k)})
  {
    hide Met, Chained;
    forall n ensures Met(fs, base, c, k + 1, n) <==> Met(fs, base, c, k, n) || Chained(fs, base, c, k) == n {
      MetNext(fs, base, c, k, n);
    }
  }

  /** The way is gone up to its `k`-th name, and `left` are the names not met. */
  ghost predicate Way(fs: Links, names: set<string>, left: set<string>, s: State, c: string, k: nat) {
    && Siblings(fs) && NamesOf(fs, names) && Plain(c) && Fresh(s)
    && OnTheWay(fs, s.realPath[1..], c, k) && NotMet(fs, s.realPath[1..], c, k, names, left)
  }

  lemma WayGoesOn(fs: Links, names: set<string>, left: set<string>, s: State, rest: seq<string>, c: string, k: nat)
    requires Way(fs, names, left, s, c, k) && !EndsWay(fs, s.realPath[1..], c, k)
    ensures var less := left - {Chained(fs, s.realPath[1..], c, k)};
            Way(fs, names, less, s, c, k + 1) && |less| < |left|
    ensures Step(fs, OnWay(fs, s, rest, c, k)) == OnWay(fs, s, rest, c, k + 1)
  {
    hide Step, Siblings, NamesOf, Chained, OnTheWay, EndsWay, Fresh, Plain, Met, NotMet, OnWay;
    FreshHasRoot(s);
    WayFollows(fs, names, s, rest, c, k);
    NotEndedIsNotMet(fs, s.realPath[1..], c, k);
    NotMetNext(fs, s.realPath[1..], c, k, names, left);
  }

  lemma WayIsOver(fs: Links, names: set<string>, left: set<string>, s: State, rest: seq<string>, c: string, k: nat)
    requires Way(fs, names, left, s, c, k) && EndsWay(fs, s.realPath[1..], c, k)
    ensures s.realPath != [] && Arrives(fs, s, rest, c, k, Run(fs, OnWay(fs, s, rest, c, k), 1))
  {
    hide Step, Run, Siblings, NamesOf, Chained, OnTheWay, EndsWay, Fresh, Plain, NotMet, OnWay, Arrives;
    FreshHasRoot(s);
    OnWayIsBusy(fs, s, rest, c, k);
    WayStops(fs, names, s, rest, c, k);
    RunOne(fs, OnWay(fs, s, rest, c, k), 0);
    RunNone(fs, Step(fs, OnWay(fs, s, rest, c, k)));
  }

  lemma WayHasRoot(fs: Links, names: set<string>, left: set<string>, s: State, c: string, k: nat)
    requires Way(fs, names, left, s, c, k)
    ensures s.realPath != []
  {
  }

  lemma {:induction false} WayEnds(fs: Links, names: set<string>, left: set<string>, s: State, rest: seq<string>,
                                  c: string, k: nat) returns (j: nat)
    requires Way(fs, names, left, s, c, k) && s.realPath != []
    ensures j >= k && EndsWay(fs, s.realPath[1..], c, j)
    ensures Arrives(fs, s, rest, c, j, Run(fs, OnWay(fs, s, rest, c, k), j - k + 1))
    decreases |left|
  {
    hide Way, Step, Run, Chained, EndsWay, OnWay, Arrives;
    var t := OnWay(fs, s, rest, c, k);
    OnWayIsBusy(fs, s, rest, c, k);
    if EndsWay(fs, s.realPath[1..], c, k) {
      j := k;
      WayIsOver(fs, names, left, s, rest, c, k);
    } else {
      WayGoesOn(fs, names, left, s, rest, c, k);
      j := WayEnds(fs, names, left - {Chained(fs, s.realPath[1..], c, k)}, s, rest, c, k + 1);
      RunOne(fs, t, j - k);
    }
  }

  lemma NotEndedIsNotMet(fs: Links, base: Path, c: string, k: nat)
    requires OnTheWay(fs, base, c, k) && !EndsWay(fs, base, c, k)
    ensures !Met(fs, base, c, k, Chained(fs, base, c, k))
  {
    hide Met, Chained, OnTheWay;
  }

  lemma OnWayIsBusy(fs: Links, s: State, rest: seq<string>, c: string, k: nat)
    requires s.realPath != []
    ensures OnWay(fs, s, rest, c, k).path != [] && OnWay(fs, s, rest, c, k).realPath == s.realPath
  {
    hide Chained, Followed;
  }

  lemma FreshHasRoot(s: State)
    requires Fresh(s)
    ensures s.realPath != []
  {
  }

  /** One name in a directory whose links stay in it: after as many passes as there
      are names on the way, the loop has appended the name where the way ends. On a
      cycle that is the link at which the cycle was entered. */
  lemma SiblingChainEnds(fs: Links, names: set<string>, s: State, rest: seq<string>, c: string) returns (j: nat)
    requires Siblings(fs) && NamesOf(fs, names) && Plain(c) && Fresh(s)
    requires s.path == rest + [c]
    ensures EndsWay(fs, s.realPath[1..], c, j)
    ensures s.realPath != [] && Arrives(fs, s, rest, c, j, Run(fs, s, j + 1))
  {
    hide *;
    FreshHasRoot(s);
    WayBegins(fs, names, s, rest, c);
    j := WayEnds(fs, names, names, s, rest, c, 0);
  }

  lemma WayBegins(fs: Links, names: set<string>, s: State, rest: seq<string>, c: string)
    requires Siblings(fs) && NamesOf(fs, names) && Plain(c) && Fresh(s)
    requires s.realPath != [] && s.path == rest + [c]
    ensures Way(fs, names, names, s, c, 0) && OnWay(fs, s, rest, c, 0) == s
  {
    hide Siblings, NamesOf, Fresh, Plain;
    assert s.following + [] == s.following;
  }

  /** For example: two links to each other end where they were begun. */
  lemma LoopEndsAtItsEntry(fs: Links, root: string, a: string, b: string)
    requires Plain(a) && Plain(b) && a != b && fs([a]) == Link(b) && fs([b]) == Link(a)
    ensures Run(fs, Start(root, a), 3).path == [] && Run(fs, Start(root, a), 3).realPath == [root, a]
    ensures Run(fs, Start(root, a), 3).circular
  {
    PendingOne(a);
    PendingOne(b);
    hide Step, Split, Reverse, Run;
    var s0 := State([a], [], [root], false);
    var s1 := State([b], [[a]], [root], false);
    var s2 := State([a], [[a], [b]], [root], false);
    var s3 := State([], [[a], [b]], [root, a], true);
    assert [] + [a] == [a] && [] + [b] == [b] && [] + [[a]] == [[a]] && [[a]] + [[b]] == [[a], [b]];
    StepFollows(fs, [], a, [], root, [b]);
    StepFollows(fs, [], b, [[a]], root, [a]);
    StepMeets(fs, a, [[a], [b]], root);
    RunOne(fs, s0, 2);
    RunOne(fs, s1, 1);
    RunOne(fs, s2, 0);
    RunNone(fs, s3);
  }

  lemma StepMeets(fs: Links, c: string, following: seq<Path>, root: string)
    requires Plain(c) && fs([c]) != NoLink && [c] in following
    ensures Step(fs, State([c], following, [root], false)) == State([], following, [root, c], true)
  {
    assert [root][1..] + [c] == [c] && DropLast([c]) == [];
  }

  // ------------------------------------------------------------ where it goes wrong

  lemma PendingOne(x: string)
    requires '/' !in x
    ensures Reverse(Split(x, '/')) == [x]
  {
    SplitPlain(x, '/');
    hide *;
  }

  lemma PendingTwo(x: string, y: string)
    requires '/' !in x && '/' !in y
    ensures Reverse(Split(x + "/" + y, '/')) == [y, x]
  {
    SplitPlain(y, '/');
    SplitAtSep(x, y, '/');
    hide *;
    assert x + ['/'] + y == x + "/" + y;
  }

  lemma StepExpands(fs: Links, path: seq<string>, c: string, root: string, pushed: seq<string>)
    requires Plain(c) && fs([c]).Link? && !IsAbs(fs([c]).target)
    requires pushed == Reverse(Split(fs([c]).target, '/'))
    ensures Step(fs, State(path + [c], [], [root], false)) == State(path + pushed, [[c]], [root], false)
  {
    hide Reverse, Split;
    assert [root][1..] + [c] == [c] && DropLast(path + [c]) == path;
  }

  lemma ClimbingSteps(fs: Links, root: string, a: string)
    requires Plain(a) && fs([a]) == Link(".." + "/" + a)
    ensures var s := Start(root, a);
            s.path != [] && Step(fs, s).path != [] && Step(fs, Step(fs, s)) == s
  {
    PendingOne(a);
    PendingTwo("..", a);
    hide Split, Reverse;
    StepExpands(fs, [], a, root, [a, ".."]);
    assert [] + [a] == [a] && [] + [a, ".."] == [a, ".."];
    var s1 := State([a, ".."], [[a]], [root], false);
    assert DropLast(s1.path) == [a] && DropLast(s1.following) == [];
  }

  /** Not for every tree: a root link `a` with target `../a` is expanded for
      ever, because `..` also pops `following`. */
  lemma {:induction false} ClimbingLinkDiverges(fs: Links, root: string, a: string, n: nat)
    requires Plain(a) && fs([a]) == Link(".." + "/" + a)
    ensures Run(fs, Start(root, a), n).path != []
  {
    ClimbingSteps(fs, root, a);
    hide Start, Step;
    if n >= 2 {
      ClimbingLinkDiverges(fs, root, a, n - 2);
      var s := Start(root, a);
      assert Run(fs, s, n) == Run(fs, Step(fs, s), n - 1);
    }
  }

  lemma StepSkips(fs: Links, path: seq<string>, c: string, following: seq<Path>, root: string)
    requires Skipped(c)
    ensures Step(fs, State(path + [c], following, [root], false)) == State(path, following, [root], false)
  {
    assert DropLast(path + [c]) == path;
  }

  lemma StepStopsAt(fs: Links, path: seq<string>, c: string, root: string)
    requires Plain(c) && fs([c]) != NoLink
    ensures Step(fs, State(path + [c], [[c]], [root], false)) == State(path, [[c]], [root, c], true)
  {
    assert [root][1..] + [c] == [c] && DropLast(path + [c]) == path;
  }

  lemma HarmlessSteps(fs: Links, root: string, x: string)
    requires Plain(x) && fs([x]) == Link(".")
    ensures var s := Start(root, x + "/" + x);
            && s.path != [] && Step(fs, s).path != [] && Step(fs, Step(fs, s)).path != []
            && Step(fs, Step(fs, Step(fs, s))) == State([], [[x]], [root, x], true)
  {
    hide Split, Reverse, Step;
    PendingTwo(x, x);
    PendingOne(".");
    StepExpands(fs, [x], x, root, ["."]);
    StepSkips(fs, [x], ".", [[x]], root);
    StepStopsAt(fs, [], x, root);
    assert [x] + [x] == [x, x] && [] + [x] == [x];
  }

  lemma HarmlessResolves(fs: Links, x: string)
    requires Plain(x) && fs([x]) == Link(".")
    ensures Resolve(fs, [], [x, x], 1) == At([])
  {
    SplitPlain(".", '/');
    hide Split;
    assert [] + [x] == [x];
    assert Resolve(fs, [], ["."], 0) == At([]);
    assert Resolve(fs, [], [x], 1) == At([]);
  }

  /** And the circular-link branch also stops at a harmless link: with the
      link `x` to `.`, `x/x` resolves to the root, but the loop ends at `x`. */
  lemma HarmlessLinkIsTakenForCircular(fs: Links, root: string, x: string)
    requires Plain(x) && fs([x]) == Link(".")
    ensures Resolve(fs, [], [x, x], 1) == At([])
    ensures Run(fs, Start(root, x + "/" + x), 3) == State([], [[x]], [root, x], true)
  {
    HarmlessSteps(fs, root, x);
    HarmlessResolves(fs, x);
    hide Start, Step, Resolve, Plain;
    var s := Start(root, x + "/" + x);
    assert Run(fs, s, 3) == Run(fs, Step(fs, s), 2) == Run(fs, Step(fs, Step(fs, s)), 1);
  }

  /** An ordinary chain of links below the root: `a` to `b` to `c` to `/d`. */
  function ChainLinks(a: string, b: string, c: string, d: string): Links {
    p => if p == [a] then Link(b) else if p == [b] then Link(c) else if p == [c] then Link("/" + d) else NoLink
  }

  ghost predicate FourNames(a: string, b: string, c: string, d: string) {
    Plain(a) && Plain(b) && Plain(c) && Plain(d) && a != b && a != c && a != d && b != c && b != d && c != d
  }

  function ChainRank(a: string, b: string, c: string): string -> nat {
    x => if x == a then 3 else if x == b then 2 else if x == c then 1 else 0
  }

  lemma RootedSplit(d: string)
    requires '/' !in d
    ensures Split("/" + d, '/') == ["", d]
  {
    SplitPlain(d, '/');
    SplitAtSep("", d, '/');
    assert "" + ['/'] + d == "/" + d;
  }

  ghost predicate IsChain(fs: Links, a: string, b: string, c: string, d: string, top: string) {
    && Plain(a) && Plain(b) && Plain(c) && Plain(d)
    && fs([a]) == Link(b) && fs([b]) == Link(c) && fs([c]) == Link(top) && fs([d]) == NoLink
    && IsAbs(top) && Split(top, '/') == ["", d] && Split(b, '/') == [b] && Split(c, '/') == [c]
    && !IsAbs(b) && !IsAbs(c)
  }

  lemma ChainLinksAreChain(a: string, b: string, c: string, d: string)
    requires FourNames(a, b, c, d)
    ensures IsChain(ChainLinks(a, b, c, d), a, b, c, d, "/" + d)
  {
    SplitPlain(b, '/');
    SplitPlain(c, '/');
    RootedSplit(d);
    hide Split;
    assert b[0] in b && c[0] in c;
  }

  lemma ChainIsRanked(fs: Links, rank: string -> nat, a: string, b: string, c: string, d: string, top: string)
    requires IsChain(fs, a, b, c, d, top) && rank(a) > rank(b) > rank(c) > rank(d)
    requires forall p :: fs(p) != NoLink ==> p == [a] || p == [b] || p == [c]
    ensures Ranked(fs, rank, 2)
  {
    hide Split;
  }

  lemma ResolveLink(fs: Links, x: string, dir: Path, rest: seq<string>, fuel: nat)
    requires Plain(x) && fs([x]).Link?
    requires Resolve(fs, [], Split(fs([x]).target, '/'), fuel) == At(dir)
    ensures Resolve(fs, [], [x] + rest, fuel + 1) == Resolve(fs, dir, rest, fuel + 1)
  {
    hide Split;
    assert [] + [x] == [x] && ([x] + rest)[1..] == rest;
  }

  lemma ResolveRooted(fs: Links, d: string)
    requires Plain(d) && fs([d]) == NoLink
    ensures Resolve(fs, [], ["", d], 0) == At([d])
  {
    assert [] + [d] == [d] && ["", d][1..] == [d] && [d][1..] == [];
    assert Resolve(fs, [], [d], 0) == Resolve(fs, [d], [], 0);
  }

  lemma ResolveEnd(fs: Links, dir: Path, fuel: nat)
    ensures Resolve(fs, dir, [], fuel) == At(dir)
  {
  }

  lemma ResolveUp(fs: Links, d: string, rest: seq<string>, fuel: nat)
    ensures Resolve(fs, [d], [".."] + rest, fuel) == Resolve(fs, [], rest, fuel)
  {
    assert ([".."] + rest)[1..] == rest && DropLast([d]) == [];
  }

  lemma ChainResolves(fs: Links, a: string, b: string, c: string, d: string, top: string)
    requires IsChain(fs, a, b, c, d, top)
    ensures Resolve(fs, [], [a, "..", a], 3) == At([d])
  {
    hide Split, Resolve;
    ResolveRooted(fs, d);
    ResolveEnd(fs, [d], 1);
    ResolveEnd(fs, [d], 2);
    ResolveEnd(fs, [d], 3);
    assert [c] + [] == [c] && [b] + [] == [b] && [a] + [] == [a];
    ResolveLink(fs, c, [d], [], 0);
    ResolveLink(fs, b, [d], [], 1);
    ResolveLink(fs, a, [d], [], 2);
    assert [a, "..", a] == [a] + ["..", a] && ["..", a] == [".."] + [a];
    ResolveLink(fs, a, [d], ["..", a], 2);
    ResolveUp(fs, d, [a], 3);
  }

  lemma StepFollows(fs: Links, path: seq<string>, c: string, following: seq<Path>, root: string, pushed: seq<string>)
    requires Plain(c) && fs([c]).Link? && [c] !in following && pushed == Reverse(Split(fs([c]).target, '/'))
    ensures Step(fs, State(path + [c], following, [root], false))
            == State(path + pushed, following + [[c]], [root], false)
  {
    hide Reverse, Split;
    assert [root][1..] + [c] == [c] && DropLast(path + [c]) == path;
    assert [root][..1] == [root];
  }

  lemma StepEnters(fs: Links, path: seq<string>, c: string, following: seq<Path>, q: Path, root: string)
    requires Plain(c) && fs([c]) == NoLink
    ensures Step(fs, State(path + [c], following + [q], [root], false)) == State(path, following, [root, c], false)
  {
    assert [root][1..] + [c] == [c] && DropLast(path + [c]) == path && DropLast(following + [q]) == following;
  }

  lemma StepLeaves(fs: Links, path: seq<string>, c: string, following: seq<Path>, q: Path, root: string)
    ensures Step(fs, State(path + [".."], following + [q], [root, c], false)) == State(path, following, [root], false)
  {
    assert DropLast(path + [".."]) == path && DropLast(following + [q]) == following && DropLast([root, c]) == [root];
  }

  lemma RunOne(fs: Links, s: State, n: nat)
    requires s.realPath != [] && s.path != []
    ensures Run(fs, s, n + 1) == Run(fs, Step(fs, s), n)
  {
    hide Step;
  }

  /** Down the chain to `d`. */
  lemma ChainDown(fs: Links, root: string, a: string, b: string, c: string, d: string, top: string, up: seq<string>)
    requires IsChain(fs, a, b, c, d, top) && a != b && a != c && b != c
    ensures Run(fs, State(up + [a], [], [root], false), 5) == State(up, [[a], [b]], [root, d], false)
  {
    hide Step, Split, Reverse, Run;
    var s0 := State(up + [a], [], [root], false);
    var s1 := State(up + [b], [[a]], [root], false);
    var s2 := State(up + [c], [[a], [b]], [root], false);
    var s3 := State(up + [d] + [""], [[a], [b], [c]], [root], false);
    var s4 := State(up + [d], [[a], [b], [c]], [root], false);
    var s5 := State(up, [[a], [b]], [root, d], false);
    ReverseSmall(b, c, d);
    assert [] + [[a]] == [[a]] && [[a]] + [[b]] == [[a], [b]] && [[a], [b]] + [[c]] == [[a], [b], [c]];
    StepFollows(fs, up, a, [], root, [b]);
    StepFollows(fs, up, b, [[a]], root, [c]);
    StepFollows(fs, up, c, [[a], [b]], root, [d, ""]);
    assert up + [d, ""] == up + [d] + [""];
    StepSkipsEmpty(fs, up + [d], [[a], [b], [c]], root);
    StepEnters(fs, up, d, [[a], [b]], [c], root);
    RunOne(fs, s0, 4);
    RunOne(fs, s1, 3);
    RunOne(fs, s2, 2);
    RunOne(fs, s3, 1);
    RunOne(fs, s4, 0);
    RunNone(fs, s5);
  }

  lemma RunNone(fs: Links, s: State)
    requires s.realPath != []
    ensures Run(fs, s, 0) == s
  {
  }

  lemma ReverseSmall(b: string, c: string, d: string)
    ensures Reverse([b]) == [b] && Reverse([c]) == [c] && Reverse(["", d]) == [d, ""]
  {
  }

  /** The second pass over `a` takes the circular-link branch. */
  lemma ChainSteps(fs: Links, root: string, a: string, b: string, c: string, d: string, top: string)
    requires IsChain(fs, a, b, c, d, top) && a != b && a != c && b != c
    ensures Run(fs, State([a, "..", a], [], [root], false), 7) == State([], [[a]], [root, a], true)
  {
    hide Step, Split, Run;
    var s5 := State([a, ".."], [[a], [b]], [root, d], false);
    var s6 := State([a], [[a]], [root], false);
    assert [a, ".."] + [a] == [a, "..", a] && [a] + [".."] == [a, ".."] && [] + [a] == [a];
    assert [[a]] + [[b]] == [[a], [b]];
    ChainDown(fs, root, a, b, c, d, top, [a, ".."]);
    StepLeaves(fs, [a], d, [[a]], [b], root);
    StepStopsAt(fs, [], a, root);
    RunOne(fs, s5, 1);
    RunOne(fs, s6, 0);
    RunNone(fs, State([], [[a]], [root, a], true));
    RunRun(fs, State([a, "..", a], [], [root], false), 5, 2);
  }

  lemma StepSkipsEmpty(fs: Links, path: seq<string>, following: seq<Path>, root: string)
    ensures Step(fs, State(path + [""], following, [root], false)) == State(path, following, [root], false)
  {
    assert DropLast(path + [""]) == path;
  }

  /** Ranked links are not enough: with this chain `a/../a` resolves to `d`, but
      the loop takes the second `a` for a cycle and ends there. */
  lemma RankedChainIsTakenForCircular(root: string, a: string, b: string, c: string, d: string)
    requires FourNames(a, b, c, d)
    ensures var fs := ChainLinks(a, b, c, d);
            && Ranked(fs, ChainRank(a, b, c), 2)
            && Start(root, a + "/.." + "/" + a) == State([a, "..", a], [], [root], false)
            && Resolve(fs, [], Split(a + "/.." + "/" + a, '/'), 3) == At([d])
            && Run(fs, Start(root, a + "/.." + "/" + a), 7) == State([], [[a]], [root, a], true)
  {
    ChainLinksAreChain(a, b, c, d);
    ChainIsRanked(ChainLinks(a, b, c, d), ChainRank(a, b, c), a, b, c, d, "/" + d);
    ClimbingPath(a);
    hide Split, Reverse, Run, Resolve, Ranked, ChainLinks, ChainRank, IsChain;
    ChainSteps(ChainLinks(a, b, c, d), root, a, b, c, d, "/" + d);
    ChainResolves(ChainLinks(a, b, c, d), a, b, c, d, "/" + d);
  }

  lemma ClimbingPath(a: string)
    requires '/' !in a
    ensures Split(a + "/.." + "/" + a, '/') == [a, "..", a] && Reverse([a, "..", a]) == [a, "..", a]
  {
    SplitPlain(a, '/');
    SplitAtSep("..", a, '/');
    SplitAtSep(a, ".." + ['/'] + a, '/');
    hide Split;
    assert a + "/.." + "/" + a == a + ['/'] + (".." + ['/'] + a);
    assert [a] + ([".."] + [a]) == [a, "..", a];
    assert [a, "..", a] == [a] + ["..", a] && ["..", a] == [".."] + [a];
    hide Reverse;
  }
}
