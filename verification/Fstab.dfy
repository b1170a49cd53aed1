/** Mountpoint strings and `mountpoint_dict`: how fstab entries get their
    directory ids and in which order the mountpoints are visited. */
module Fstab {
  import opened Lists
  import opened Strings

  /** Length of the prefix of `p` up to and including its last slash. */
  function AfterLastSlash(p: string): (i: nat)
    ensures i <= |p|
    ensures '/' !in p[i..]
    ensures i > 0 ==> p[i - 1] == '/'
  {
    if p == "" then 0
    else if p[|p| - 1] == '/' then |p|
    else
      var i := AfterLastSlash(p[..|p| - 1]);
      assert p[i..] == p[..|p| - 1][i..] + [p[|p| - 1]];
      i
  }

  function RStripSlash(p: string): (r: string)
    ensures |r| <= |p|
  {
    if p != "" && p[|p| - 1] == '/' then RStripSlash(p[..|p| - 1]) else p
  }

  /** `os.path.split` */
  function PathSplit(p: string): (r: (string, string))
    ensures r.1 != "" ==> |r.0| < |p|
  {
    var i := AfterLastSlash(p);
    var head, tail := p[..i], p[i..];
    if forall c | c in head :: c == '/' then (head, tail) else (RStripSlash(head), tail)
  }

  function Depth(mp: string): nat
    decreases |mp|
  {
    var (h, t) := PathSplit(mp);
    if t == "" then 0 else 1 + Depth(h)
  }

  method MountDepth(mp: string) returns (depth: nat)
    ensures depth == Depth(mp)
  {
    depth := 0;
    var h := mp;
    while true
      invariant Depth(mp) == depth + Depth(h)
      decreases |h|
    {
      var (h', t) := PathSplit(h);
      if t == "" {
        return;
      }
      h := h';
      depth := depth + 1;
    }
  }

  predicate ValidName(n: string) {
    n != "" && n != "." && n != ".." && '/' !in n
  }

  /** An absolute mountpoint without empty, `.` or `..` components and
      without a trailing slash. */
  predicate Normal(mp: string) {
    mp == "/"
    || (var parts := Split(mp, '/');
        |parts| > 1 && parts[0] == "" && forall n | n in parts[1..] :: ValidName(n))
  }

  function Comps(mp: string): Path {
    if mp == "/" then [] else Split(mp, '/')[1..]
  }

  lemma CompsInjective(a: string, b: string)
    requires Normal(a) && Normal(b)
    ensures Comps(a) == Comps(b) <==> a == b
  {
    JoinSplit(a, '/');
    JoinSplit(b, '/');
    if Comps(a) == Comps(b) {
      if a != "/" && b != "/" {
        assert Split(a, '/') == [""] + Comps(a);
        assert Split(b, '/') == [""] + Comps(b);
      }
    }
  }

  lemma {:induction false} AfterLastSlashAt(a: string, c: string)
    requires '/' !in c
    ensures AfterLastSlash(a + "/" + c) == |a| + 1
  {
    var p := a + "/" + c;
    if c != "" {
      AfterLastSlashAt(a, c[..|c| - 1]);
      assert p[..|p| - 1] == a + "/" + c[..|c| - 1];
    }
  }

  lemma {:induction false} JoinEndsInName(comps: Path)
    requires forall n | n in comps :: ValidName(n)
    requires |comps| >= 1
    ensures var p := Join([""] + comps, '/'); p != "" && p[|p| - 1] != '/'
  {
    var last := comps[|comps| - 1];
    assert [""] + comps == ([""] + comps[..|comps| - 1]) + [last];
    JoinSnoc([""] + comps[..|comps| - 1], last, '/');
    assert last in comps && last[|last| - 1] in last;
  }

  /** Any trailing slash gives depth 0, however deep the mountpoint is. */
  lemma TrailingSlashHasDepthZero(mp: string)
    ensures Depth(mp + "/") == 0
  {
    AfterLastSlashAt(mp, "");
    assert mp + "/" + "" == mp + "/";
  }

  // ---------------------------------------------------- when the depth is right

  /** The components that are not empty. */
  function Names(parts: seq<string>): seq<string> {
    if parts == [] then []
    else Names(Front(parts)) + if Last(parts) == "" then [] else [Last(parts)]
  }

  predicate OnlySlashes(p: string) {
    forall c | c in p :: c == '/'
  }

  lemma NamesSnoc(parts: seq<string>, part: string)
    ensures Names(parts + [part]) == Names(parts) + if part == "" then [] else [part]
  {
    assert Front(parts + [part]) == parts;
  }

  lemma SplitLast(head: string, last: string)
    requires '/' !in last
    ensures Split(head + "/" + last, '/') == Split(head, '/') + [last]
  {
    hide Split;
    SplitSnoc(head, '/', '/');
    SplitResume(head + "/", last, '/');
    SplitPlain(last, '/');
    assert Front(Split(head, '/') + [""]) == Split(head, '/') && "" + last == last;
    assert head + ['/'] == head + "/";
  }

  lemma SlashAddsNoName(p: string)
    ensures Names(Split(p + "/", '/')) == Names(Split(p, '/'))
  {
    hide Split, Names;
    SplitLast(p, "");
    NamesSnoc(Split(p, '/'), "");
    assert p + "/" + "" == p + "/";
  }

  lemma SlashesOfJoined(head: string, last: string)
    requires '/' !in last
    ensures OnlySlashes(head + "/" + last) <==> OnlySlashes(head) && last == ""
  {
    var p := head + "/" + last;
    assert forall c :: c in p <==> c in head || c == '/' || c in last;
    assert last != "" ==> last[0] in last;
  }

  lemma {:induction false} StripKeepsNames(p: string)
    ensures Names(Split(RStripSlash(p), '/')) == Names(Split(p, '/'))
    ensures OnlySlashes(RStripSlash(p)) <==> OnlySlashes(p)
    ensures RStripSlash(p) != "" ==> RStripSlash(p)[|RStripSlash(p)| - 1] != '/'
  {
    hide Split, Names;
    if p != "" && p[|p| - 1] == '/' {
      var q := p[..|p| - 1];
      StripKeepsNames(q);
      SlashAddsNoName(q);
      SlashesOfJoined(q, "");
      assert p == q + "/" && q + "/" + "" == q + "/";
    }
  }

  lemma {:induction false} NoNamesInSlashes(p: string)
    ensures Names(Split(p, '/')) == [] <==> OnlySlashes(p)
    decreases |p|
  {
    hide Split, Names;
    var i := AfterLastSlash(p);
    if i == 0 {
      SplitPlain(p, '/');
      assert p[0..] == p;
      OneName(p);
      if p != "" {
        assert p[0] in p;
      }
    } else {
      var head, last := p[..i - 1], p[i..];
      assert p == head + "/" + last;
      SplitLast(head, last);
      NamesSnoc(Split(head, '/'), last);
      NoNamesInSlashes(head);
      SlashesOfJoined(head, last);
    }
  }

  lemma OneName(name: string)
    ensures Names([name]) == if name == "" then [] else [name]
    ensures Names([]) == []
  {
    assert Front([name]) == [] && Names([]) == [];
  }

  predicate EndsInSlash(mp: string) {
    mp != "" && mp[|mp| - 1] == '/'
  }

  lemma {:induction false} CleanDepth(mp: string)
    requires EndsInSlash(mp) ==> OnlySlashes(mp)
    ensures Depth(mp) == |Names(Split(mp, '/'))|
    decreases |mp|
  {
    hide Split, Names;
    var i := AfterLastSlash(mp);
    var head, last := mp[..i], mp[i..];
    assert mp == head + last;
    if last == "" {
      SlashesOrNothing(mp, i);
      NoNamesInSlashes(mp);
    } else if i == 0 {
      assert last == mp && head == "";
      SplitPlain(mp, '/');
      OneName(mp);
      assert Depth("") == 0;
    } else {
      var before := mp[..i - 1];
      assert mp == before + "/" + last && head == before + "/";
      SplitLast(before, last);
      NamesSnoc(Split(before, '/'), last);
      SlashAddsNoName(before);
      if OnlySlashes(head) {
        CleanDepth(head);
      } else {
        StripKeepsNames(head);
        CleanDepth(RStripSlash(head));
      }
    }
  }

  lemma SlashesOrNothing(mp: string, i: nat)
    requires i == AfterLastSlash(mp) && mp[i..] == "" && (EndsInSlash(mp) ==> OnlySlashes(mp))
    ensures OnlySlashes(mp) && Depth(mp) == 0
  {
  }

  /** The depth is the number of names in the path exactly if it does not end in
      a slash, or is nothing but slashes. */
  lemma DepthIsRightExactly(mp: string)
    ensures Depth(mp) == |Names(Split(mp, '/'))| <==> (EndsInSlash(mp) ==> OnlySlashes(mp))
  {
    hide Split, Names, Depth;
    if EndsInSlash(mp) ==> OnlySlashes(mp) {
      CleanDepth(mp);
    } else {
      TrailingSlashHasDepthZero(mp[..|mp| - 1]);
      assert mp == mp[..|mp| - 1] + "/";
      NoNamesInSlashes(mp);
    }
  }

  lemma {:induction false} AllNames(parts: seq<string>)
    requires "" !in parts
    ensures Names(parts) == parts
  {
    if parts != [] {
      assert parts == Front(parts) + [Last(parts)] && Last(parts) in parts;
      AllNames(Front(parts));
    }
  }

  lemma {:induction false} NamesAppend(a: seq<string>, b: seq<string>)
    ensures Names(a + b) == Names(a) + Names(b)
  {
    hide Names;
    if b == [] {
      OneName("");
      assert a + b == a;
    } else {
      NamesAppend(a, Front(b));
      NamesSnoc(Front(b), Last(b));
      NamesSnoc(a + Front(b), Last(b));
      assert b == Front(b) + [Last(b)] && a + b == a + Front(b) + [Last(b)];
    }
  }

  /** On a normal mountpoint the loop counts exactly its components, so a
      strict prefix of a mountpoint is strictly shallower. */
  lemma DepthIsComponentCount(mp: string)
    requires Normal(mp)
    ensures Depth(mp) == |Comps(mp)|
  {
    hide Split, Depth;
    DepthIsRightExactly(mp);
    if mp == "/" {
      NoNamesInSlashes(mp);
    } else {
      var comps := Comps(mp);
      JoinSplit(mp, '/');
      assert Split(mp, '/') == [""] + comps;
      JoinEndsInName(comps);
      NamesAppend([""], comps);
      OneName("");
      AllNames(comps);
    }
  }

  // Stable insertion of a mountpoint behind all that are at most as deep.
  function InsertByDepth(mp: string, mps: seq<string>): seq<string> {
    if mps == [] || Depth(mp) < Depth(mps[0]) then [mp] + mps
    else [mps[0]] + InsertByDepth(mp, mps[1..])
  }

  function SortByDepth(mps: seq<string>): seq<string> {
    if mps == [] then []
    else InsertByDepth(mps[|mps| - 1], SortByDepth(mps[..|mps| - 1]))
  }

  ghost predicate Sorted(mps: seq<string>) {
    forall i, j | 0 <= i < j < |mps| :: Depth(mps[i]) <= Depth(mps[j])
  }

  lemma SortedCons(x: string, rest: seq<string>)
    requires Sorted(rest)
    requires rest != [] ==> Depth(x) <= Depth(rest[0])
    ensures Sorted([x] + rest)
  {
    hide Depth;
    var xs := [x] + rest;
    forall i, j | 0 <= i < j < |xs| ensures Depth(xs[i]) <= Depth(xs[j]) {
      assert xs[j] == rest[j - 1];
      if i > 0 {
        assert xs[i] == rest[i - 1];
      }
    }
  }

  lemma {:induction false} InsertByDepthKeeps(mp: string, mps: seq<string>)
    ensures multiset(InsertByDepth(mp, mps)) == multiset(mps) + multiset{mp}
  {
    hide Depth;
    if mps != [] && Depth(mp) >= Depth(mps[0]) {
      InsertByDepthKeeps(mp, mps[1..]);
      assert mps == [mps[0]] + mps[1..];
    }
  }

  lemma {:induction false} InsertByDepthSorts(mp: string, mps: seq<string>)
    requires Sorted(mps)
    ensures var r := InsertByDepth(mp, mps);
            Sorted(r) && (r[0] == mp || (mps != [] && r[0] == mps[0]))
  {
    hide Depth;
    if mps == [] || Depth(mp) < Depth(mps[0]) {
      SortedCons(mp, mps);
    } else {
      InsertByDepthSorts(mp, mps[1..]);
      SortedCons(mps[0], InsertByDepth(mp, mps[1..]));
    }
  }

  lemma NothingIsSorted()
    ensures Sorted([])
  {
  }

  lemma {:induction false} SortByDepthSorts(mps: seq<string>)
    ensures var r := SortByDepth(mps);
            Sorted(r) && multiset(r) == multiset(mps)
  {
    hide Depth, InsertByDepth, Sorted;
    if mps == [] {
      NothingIsSorted();
    }
    if mps != [] {
      var init := mps[..|mps| - 1];
      SortByDepthSorts(init);
      InsertByDepthSorts(mps[|mps| - 1], SortByDepth(init));
      InsertByDepthKeeps(mps[|mps| - 1], SortByDepth(init));
      assert mps == init + [mps[|mps| - 1]];
    }
  }

  function OfDepth(mps: seq<string>, k: nat): seq<string> {
    if mps == [] then []
    else (if Depth(mps[0]) == k then [mps[0]] else []) + OfDepth(mps[1..], k)
  }

  lemma {:induction false} InsertedIsLast(mp: string, mps: seq<string>, k: nat)
    requires Sorted(mps)
    ensures OfDepth(InsertByDepth(mp, mps), k) == OfDepth(mps, k) + if Depth(mp) == k then [mp] else []
  {
    hide Depth;
    if mps == [] || Depth(mp) < Depth(mps[0]) {
      assert ([mp] + mps)[1..] == mps;
      if Depth(mp) == k {
        NoneOfDepth(mps, k);
      }
    } else {
      InsertedIsLast(mp, mps[1..], k);
      var rest := InsertByDepth(mp, mps[1..]);
      assert ([mps[0]] + rest)[1..] == rest;
    }
  }

  lemma {:induction false} NoneOfDepth(mps: seq<string>, k: nat)
    requires forall mp :: mp in mps ==> Depth(mp) != k
    ensures OfDepth(mps, k) == []
  {
    hide Depth;
    if mps != [] {
      NoneOfDepth(mps[1..], k);
    }
  }

  lemma {:induction false} OfDepthSnoc(mps: seq<string>, mp: string, k: nat)
    ensures OfDepth(mps + [mp], k) == OfDepth(mps, k) + if Depth(mp) == k then [mp] else []
  {
    hide Depth;
    if mps == [] {
      assert mps + [mp] == [mp] && [mp][1..] == [];
    } else {
      OfDepthSnoc(mps[1..], mp, k);
      assert (mps + [mp])[1..] == mps[1..] + [mp];
    }
  }

  /** Mountpoints of the same depth stay in the order of their registration. */
  lemma {:induction false} SortIsStable(mps: seq<string>, k: nat)
    ensures OfDepth(SortByDepth(mps), k) == OfDepth(mps, k)
  {
    hide Depth, InsertByDepth, OfDepth;
    if mps != [] {
      var init, last := mps[..|mps| - 1], mps[|mps| - 1];
      SortIsStable(init, k);
      SortByDepthSorts(init);
      InsertedIsLast(last, SortByDepth(init), k);
      OfDepthSnoc(init, last, k);
      assert mps == init + [last];
    }
  }

  lemma {:induction false} DistinctFromMultiset<T>(xs: seq<T>, ys: seq<T>)
    requires multiset(xs) == multiset(ys) && Distinct(xs)
    ensures Distinct(ys)
  {
    forall i, j | 0 <= i < j < |ys| ensures ys[i] != ys[j] {
      if ys[i] == ys[j] {
        assert ys == ys[..i] + [ys[i]] + ys[i + 1..j] + [ys[j]] + ys[j + 1..];
        assert multiset(xs)[ys[i]] >= 2;
        DistinctCount(xs, ys[i]);
      }
    }
  }

  lemma {:induction false} DistinctCount<T>(xs: seq<T>, x: T)
    requires Distinct(xs)
    ensures multiset(xs)[x] <= 1
  {
    if xs != [] {
      var init, last := xs[..|xs| - 1], xs[|xs| - 1];
      assert xs == init + [last];
      DistinctCount(init, x);
      assert last !in init;
    }
  }

  class FstabEntry {
    const mountpoint: string
    var id: nat

    constructor (mountpoint: string)
      ensures this.mountpoint == mountpoint
    {
      this.mountpoint := mountpoint;
      id := 0;
    }
  }

  /** The dictionary from mountpoints to ids, with its insertion order. */
  class MountpointDict {
    var ids: map<string, nat>
    var order: seq<string>
    var idCount: nat

    ghost predicate Valid()
      reads this
    {
      && Distinct(order)
      && |order| == idCount
      && (forall mp :: mp in ids <==> mp in order)
      && (forall k :: 0 <= k < |order| ==> order[k] in ids && ids[order[k]] == k)
    }

    constructor ()
      ensures Valid() && order == []
    {
      ids, order, idCount := map[], [], 0;
    }

    /** Entries get equal ids exactly when their mountpoints are equal; no
        earlier id changes. */
    method Register(e: FstabEntry)
      requires Valid()
      modifies this, e`id
      ensures Valid()
      ensures order == if e.mountpoint in old(ids) then old(order) else old(order) + [e.mountpoint]
      ensures e.mountpoint in ids && e.id == ids[e.mountpoint]
      ensures forall mp :: mp in old(ids) ==> mp in ids && ids[mp] == old(ids)[mp]
    {
      var mp := e.mountpoint;
      if mp in ids {
        e.id := ids[mp];
      } else {
        e.id := idCount;
        ids := ids[mp := idCount];
        order := order + [mp];
        idCount := idCount + 1;
      }
    }

    function DepthList(): seq<string>
      reads this
    {
      SortByDepth(order)
    }
  }
}
