/** Update packages: which debs an update ships, and what applying a package list
    does to a device. */
module Updates {
  import opened Lists

  // Versions stand for their place in the order of Debian versions (section
  // 5.6.12 of Debian Policy); equal versions are equal strings.
  type Version = int

  datatype Pkg = Pkg(name: string, version: Version)

  type Packages = map<string, Version>

  /** A dictionary filled from a list; the last entry of a name wins. */
  function Index(pkgs: seq<Pkg>): Packages {
    if pkgs == [] then map[]
    else
      var last := pkgs[|pkgs| - 1];
      Index(pkgs[..|pkgs| - 1])[last.name := last.version]
  }

  predicate Listed(pkgs: seq<Pkg>, name: string) {
    exists p | p in pkgs :: p.name == name
  }

  ghost predicate DistinctNames(pkgs: seq<Pkg>) {
    forall p, q | p in pkgs && q in pkgs && p.name == q.name :: p == q
  }

  lemma {:induction false} IndexOfList(pkgs: seq<Pkg>)
    ensures forall n :: n in Index(pkgs) <==> Listed(pkgs, n)
    ensures forall n | n in Index(pkgs) :: Pkg(n, Index(pkgs)[n]) in pkgs
    ensures DistinctNames(pkgs) ==> forall p :: p in pkgs <==> p.name in Index(pkgs) && Index(pkgs)[p.name] == p.version
  {
    if pkgs != [] {
      var init, last := pkgs[..|pkgs| - 1], pkgs[|pkgs| - 1];
      assert pkgs == init + [last];
      assert last in pkgs && forall p | p in init :: p in pkgs;
      IndexOfList(init);
    }
  }

  // ---------------------------------------------------------- gen_update_pkg

  /** The entry `p` of the old list makes `q` worth shipping. */
  predicate IsUpgrade(installed: Packages, p: Pkg, debug: bool, q: Pkg) {
    && p.name == q.name && p.name in installed && installed[p.name] == q.version
    && (q.version > p.version || (debug && q.version == p.version))
  }

  /** The package `q` of the build environment is shipped to devices that have
      the packages `base`: it is new there, or an upgrade. */
  predicate Ships(inst: seq<Pkg>, base: seq<Pkg>, debug: bool, q: Pkg) {
    || (q in inst && !Listed(base, q.name))
    || (exists p | p in base :: IsUpgrade(Index(inst), p, debug, q))
  }

  method GenUpdatePkg(inst: seq<Pkg>, base: seq<Pkg>, debug: bool) returns (fnamelist: seq<Pkg>)
    ensures forall q :: q in fnamelist <==> Ships(inst, base, debug, q)
  {
    var instindex: Packages := map[];
    for i := 0 to |inst|
      invariant instindex == Index(inst[..i])
    {
      assert inst[..i + 1][..i] == inst[..i];
      instindex := instindex[inst[i].name := inst[i].version];
    }
    assert inst[..|inst|] == inst;
    hide Index;
    var xmlindex: set<string> := {};
    fnamelist := [];
    for i := 0 to |base|
      invariant forall n :: n in xmlindex <==> exists k: nat | k < i :: base[k].name == n
      invariant forall q :: q in fnamelist <==> exists k: nat | k < i :: IsUpgrade(instindex, base[k], debug, q)
    {
      var p := base[i];
      xmlindex := xmlindex + {p.name};
      if p.name in instindex {
        var installed := instindex[p.name];
        if installed == p.version {
          if debug {
            fnamelist := fnamelist + [Pkg(p.name, installed)];
          }
        } else if installed > p.version {
          fnamelist := fnamelist + [Pkg(p.name, installed)];
        }
      }
    }
    assert forall n :: n in xmlindex <==> Listed(base, n);
    hide Listed, IsUpgrade;
    ghost var upgrades := fnamelist;
    for i := 0 to |inst|
      invariant forall q :: q in fnamelist <==> q in upgrades || (q in inst[..i] && q.name !in xmlindex)
    {
      assert inst[..i + 1] == inst[..i] + [inst[i]];
      if inst[i].name !in xmlindex {
        fnamelist := fnamelist + [inst[i]];
      }
    }
    assert inst[..|inst|] == inst;
  }

  // ------------------------------------------------------------ _apply_update

  predicate HasVersion(installed: Packages, available: set<Pkg>, p: Pkg) {
    p in available || (p.name in installed && installed[p.name] == p.version)
  }

  /** The version that the marks for `name` end with, if any entry of the list
      names an obtainable version. */
  function Marked(installed: Packages, available: set<Pkg>, fpl: seq<Pkg>, name: string): Option<Version> {
    if fpl == [] then None
    else
      var last := fpl[|fpl| - 1];
      if last.name == name && HasVersion(installed, available, last) then Some(last.version)
      else Marked(installed, available, fpl[..|fpl| - 1], name)
  }

  /** The version of `name` after the commit. */
  function After(installed: Packages, available: set<Pkg>, fpl: seq<Pkg>, name: string): Option<Version> {
    if !Listed(fpl, name) then None
    else
      match Marked(installed, available, fpl, name)
      case Some(v) => Some(v)
      case None => if name in installed then Some(installed[name]) else None
  }

  function Known(installed: Packages, available: set<Pkg>): set<string> {
    installed.Keys + set p | p in available :: p.name
  }

  function Applied(installed: Packages, available: set<Pkg>, fpl: seq<Pkg>): Packages {
    map n | n in Known(installed, available) && After(installed, available, fpl, n).Some? ::
      After(installed, available, fpl, n).value
  }

  datatype Mark = Keep | InstallVersion(version: Version) | Purge

  function MarkFor(installed: Packages, available: set<Pkg>, fpl: seq<Pkg>, name: string): Mark {
    if !Listed(fpl, name) then Purge
    else match Marked(installed, available, fpl, name) case None => Keep case Some(v) => InstallVersion(v)
  }

  /** `depcache.commit`, taken to do for each package what its mark says. */
  function Commit(installed: Packages, marks: map<string, Mark>): Packages {
    map n | n in installed.Keys + marks.Keys
            && (if n in marks && marks[n] != Keep then marks[n].InstallVersion? else n in installed) ::
      if n in marks && marks[n].InstallVersion? then marks[n].version else installed[n]
  }

  /** The marks of one package: `mark_install` for every list entry of its
      name, or else `mark_delete`. */
  method MarkPackage(installed: Packages, available: set<Pkg>, fpl: seq<Pkg>, name: string) returns (mark: Mark)
    ensures mark == MarkFor(installed, available, fpl, name)
  {
    mark := Keep;
    var marked := false;
    for j := 0 to |fpl|
      invariant marked <==> Listed(fpl[..j], name)
      invariant mark == match Marked(installed, available, fpl[..j], name)
                        case None => Keep
                        case Some(v) => InstallVersion(v)
    {
      assert fpl[..j + 1] == fpl[..j] + [fpl[j]];
      assert fpl[..j + 1][..j] == fpl[..j];
      if name == fpl[j].name {
        if HasVersion(installed, available, fpl[j]) {
          mark := InstallVersion(fpl[j].version);
        }
        marked := true;
      }
    }
    assert fpl[..|fpl|] == fpl;
    if !marked {
      mark := Purge;
    }
  }

  lemma CommitIsApplied(installed: Packages, available: set<Pkg>, fpl: seq<Pkg>, marks: map<string, Mark>)
    requires marks.Keys == Known(installed, available)
    requires forall n | n in marks :: marks[n] == MarkFor(installed, available, fpl, n)
    ensures Commit(installed, marks) == Applied(installed, available, fpl)
  {
    var c, a := Commit(installed, marks), Applied(installed, available, fpl);
    hide Marked, Listed;
    forall n ensures n in c <==> n in a
             ensures n in c ==> c[n] == a[n]
    {
      assert n in installed ==> n in marks;
    }
  }

  /** `hlCache` are the names of the package cache, in any order. */
  method ApplyUpdate(installed: Packages, available: set<Pkg>, fpl: seq<Pkg>, hlCache: seq<string>)
    returns (r: Packages)
    requires forall n :: n in hlCache <==> n in Known(installed, available)
    ensures r == Applied(installed, available, fpl)
  {
    var marks: map<string, Mark> := map[];
    for i := 0 to |hlCache|
      invariant forall n :: n in marks <==> n in hlCache[..i]
      invariant forall n | n in marks :: marks[n] == MarkFor(installed, available, fpl, n)
    {
      hide MarkFor, Known;
      assert hlCache[..i + 1] == hlCache[..i] + [hlCache[i]];
      var mark := MarkPackage(installed, available, fpl, hlCache[i]);
      marks := marks[hlCache[i] := mark];
    }
    assert hlCache[..|hlCache|] == hlCache;
    CommitIsApplied(installed, available, fpl, marks);
    r := Commit(installed, marks);
  }

  lemma {:induction false} MarkedIsLastObtainable(installed: Packages, available: set<Pkg>, fpl: seq<Pkg>, name: string)
    requires DistinctNames(fpl)
    ensures Marked(installed, available, fpl, name) ==
            if name in Index(fpl) && HasVersion(installed, available, Pkg(name, Index(fpl)[name]))
            then Some(Index(fpl)[name]) else None
  {
    IndexOfList(fpl);
    if fpl != [] {
      var init, last := fpl[..|fpl| - 1], fpl[|fpl| - 1];
      assert fpl == init + [last];
      assert last in fpl && forall p | p in init :: p in fpl;
      IndexOfList(init);
      MarkedIsLastObtainable(installed, available, init, name);
    }
  }

  /** Applying a list whose versions are all obtainable leaves exactly its
      packages, whatever was installed before. */
  lemma ApplyReaches(installed: Packages, available: set<Pkg>, fpl: seq<Pkg>)
    requires DistinctNames(fpl)
    requires forall p | p in fpl :: p in available
    ensures Applied(installed, available, fpl) == Index(fpl)
  {
    IndexOfList(fpl);
    forall n ensures After(installed, available, fpl, n) == if n in Index(fpl) then Some(Index(fpl)[n]) else None {
      MarkedIsLastObtainable(installed, available, fpl, n);
    }
    hide After, Index;
    forall n | n in Index(fpl) ensures n in Known(installed, available) {
      assert Pkg(n, Index(fpl)[n]) in available;
    }
  }

  predicate Downgraded(old': Packages, new': Packages, name: string) {
    name in old' && name in new' && new'[name] < old'[name]
  }

  lemma AfterDiff(oldList: seq<Pkg>, newList: seq<Pkg>, repo: set<Pkg>, debug: bool, n: string)
    requires DistinctNames(oldList) && DistinctNames(newList)
    requires forall q :: q in repo <==> Ships(newList, oldList, debug, q)
    ensures After(Index(oldList), repo, newList, n) ==
      if n !in Index(newList) then None
      else if Downgraded(Index(oldList), Index(newList), n) then Some(Index(oldList)[n])
      else Some(Index(newList)[n])
    ensures n in Index(newList) ==> n in Known(Index(oldList), repo)
  {
    IndexOfList(newList);
    MarkedIsLastObtainable(Index(oldList), repo, newList, n);
    if n in Index(newList) {
      ShippedOrOld(oldList, newList, repo, debug, n);
      assert n in Index(oldList) || Pkg(n, Index(newList)[n]) in repo;
    }
  }

  /** One update: a device with exactly the packages of the old list and only
      the update's repository ends with the new list, except that exactly the
      downgraded packages keep their old version. */
  lemma DiffThenApply(oldList: seq<Pkg>, newList: seq<Pkg>, repo: set<Pkg>, debug: bool)
    requires DistinctNames(oldList) && DistinctNames(newList)
    requires forall q :: q in repo <==> Ships(newList, oldList, debug, q)
    ensures Applied(Index(oldList), repo, newList) ==
            map n | n in Index(newList) ::
              if Downgraded(Index(oldList), Index(newList), n) then Index(oldList)[n] else Index(newList)[n]
  {
    hide After, Index, Known, Ships, DistinctNames;
    var r := Applied(Index(oldList), repo, newList);
    forall n
      ensures n in r <==> n in Index(newList)
      ensures n in r ==>
        (r[n] == if Downgraded(Index(oldList), Index(newList), n) then Index(oldList)[n] else Index(newList)[n])
    {
      AfterDiff(oldList, newList, repo, debug, n);
    }
  }

  lemma ShippedOrOld(oldList: seq<Pkg>, newList: seq<Pkg>, repo: set<Pkg>, debug: bool, n: string)
    requires DistinctNames(oldList) && DistinctNames(newList) && n in Index(newList)
    requires forall q :: q in repo <==> Ships(newList, oldList, debug, q)
    ensures HasVersion(Index(oldList), repo, Pkg(n, Index(newList)[n]))
       <==> !Downgraded(Index(oldList), Index(newList), n)
    ensures n in Index(oldList) || Pkg(n, Index(newList)[n]) in repo
  {
    var before, q := Index(oldList), Pkg(n, Index(newList)[n]);
    IndexOfList(oldList);
    IndexOfList(newList);
    if n in before {
      assert Pkg(n, before[n]) in oldList;
      assert Ships(newList, oldList, debug, q) <==> IsUpgrade(Index(newList), Pkg(n, before[n]), debug, q);
    }
  }

  // ----------------------------------------------------------- no more and no less

  /** The mark is for the last entry of the name whose version can be obtained. */
  lemma {:induction false} MarkedExactly(installed: Packages, available: set<Pkg>, fpl: seq<Pkg>, name: string)
    ensures match Marked(installed, available, fpl, name)
            case Some(v) =>
              exists i: nat ::
                && i < |fpl| && fpl[i] == Pkg(name, v) && HasVersion(installed, available, fpl[i])
                && forall j: nat | i < j < |fpl| && fpl[j].name == name :: !HasVersion(installed, available, fpl[j])
            case None => forall j: nat | j < |fpl| && fpl[j].name == name :: !HasVersion(installed, available, fpl[j])
  {
    hide HasVersion;
    if fpl != [] {
      var n := |fpl| - 1;
      var init := fpl[..n];
      MarkedExactly(installed, available, init, name);
      if fpl[n].name == name && HasVersion(installed, available, fpl[n]) {
        assert fpl[n] == Pkg(name, fpl[n].version);
      } else {
        match Marked(installed, available, init, name)
        case Some(v) =>
          var i: nat :| i < |init| && init[i] == Pkg(name, v) && HasVersion(installed, available, init[i])
            && forall j: nat | i < j < |init| && init[j].name == name :: !HasVersion(installed, available, init[j]);
          assert fpl[i] == init[i];
          forall j: nat | i < j < |fpl| && fpl[j].name == name ensures !HasVersion(installed, available, fpl[j]) {
            if j < n {
              assert fpl[j] == init[j];
            }
          }
        case None =>
          forall j: nat | j < |fpl| && fpl[j].name == name ensures !HasVersion(installed, available, fpl[j]) {
            if j < n {
              assert fpl[j] == init[j];
            }
          }
      }
    }
  }

  /** What is shipped, told from the two lists. */
  lemma ShippedExactly(oldList: seq<Pkg>, newList: seq<Pkg>, debug: bool, q: Pkg)
    requires DistinctNames(oldList) && DistinctNames(newList)
    ensures Ships(newList, oldList, debug, q)
       <==> q in newList && forall p | p in oldList && p.name == q.name ::
              q.version > p.version || (debug && q.version == p.version)
  {
    IndexOfList(newList);
    hide Index;
    if q in newList && Listed(oldList, q.name) {
      var p :| p in oldList && p.name == q.name;
      assert IsUpgrade(Index(newList), p, debug, q) <==> q.version > p.version || (debug && q.version == p.version);
    }
  }

  /** Without debug nothing is shipped in vain: without the one deb, the device does not
      get the version of the new list. */
  lemma NothingIsShippedInVain(oldList: seq<Pkg>, newList: seq<Pkg>, repo: set<Pkg>, q: Pkg)
    requires DistinctNames(oldList) && DistinctNames(newList) && q in repo
    requires forall p :: p in repo <==> Ships(newList, oldList, false, p)
    ensures var r := Applied(Index(oldList), repo - {q}, newList);
            q.name in Index(newList) && Index(newList)[q.name] == q.version
            && !(q.name in r && r[q.name] == q.version)
  {
    ShippedExactly(oldList, newList, false, q);
    IndexOfList(oldList);
    IndexOfList(newList);
    MarkedIsLastObtainable(Index(oldList), repo - {q}, newList, q.name);
    hide Marked, Index, Ships;
  }
}
