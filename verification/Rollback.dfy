/** The update service over whole histories: exactly when every snapshot that a
    device knows can be applied again. */
module Rollback {
  import opened Lists
  import opened Updates

  // ------------------------------------------------------- where an update is kept

  predicate Allowed(c: char) {
    || 'a' <= c <= 'z' || 'A' <= c <= 'Z' || '0' <= c <= '9'
    || c == '_' || c == '-' || c == '.'
  }

  function Replaced(s: string): (r: string)
    ensures |r| == |s|
    ensures forall i :: 0 <= i < |s| ==> r[i] == if Allowed(s[i]) then s[i] else '_'
  {
    if s == "" then "" else Replaced(Front(s)) + [if Allowed(Last(s)) then Last(s) else '_']
  }

  method FnameReplace(s: string) returns (res: string)
    ensures res == Replaced(s)
  {
    res := "";
    assert s[..0] == "";
    for i := 0 to |s|
      invariant res == Replaced(s[..i])
    {
      assert Front(s[..i + 1]) == s[..i] && Last(s[..i + 1]) == s[i];
      if Allowed(s[i]) {
        res := res + [s[i]];
      } else {
        res := res + "_";
      }
    }
    assert s[..|s|] == s;
  }

  /** The contents of a `new.xml`: `release` is the text of the version, `version`
      its place in the order that downgrades are rejected by. */
  datatype Image = Image(name: string, release: string, version: int, pkgs: seq<Pkg>)

  /** The name of an update's directory and of its sources list. */
  function Key(image: Image): string {
    Replaced(image.name) + "_" + Replaced(image.release)
  }

  /** An image with the debs of its repository. */
  datatype Stored = Stored(image: Image, repo: set<Pkg>)

  /** `base` is the image the device was built from, with its base repository;
      `updates` are the directories of the updates taken since. */
  datatype Device = Device(
    installed: Packages,
    base: Stored,
    updates: map<string, Stored>,
    current: Option<int>,
    downgradeAllowed: bool)

  const BASE_VERSION := "base_version"

  /** What `apply_snapshot` finds under a name. */
  function Lookup(d: Device, ver: string): Option<Stored> {
    if ver == BASE_VERSION then Some(d.base)
    else if ver in d.updates then Some(d.updates[ver])
    else None
  }

  /** The debs of all repositories in the sources lists. */
  function Available(d: Device): (r: set<Pkg>)
    ensures forall p :: p in r <==> p in d.base.repo || exists k :: k in d.updates && p in d.updates[k].repo
  {
    var r := set k, p | k in d.updates && p in d.updates[k].repo :: p;
    assert forall k, p :: k in d.updates && p in d.updates[k].repo ==> p in r;
    d.base.repo + r
  }

  datatype Event =
    | Update(image: Image, from: string, debug: bool)   // an update generated against the snapshot `from`
    | Snapshot(ver: string)                             // apply_snapshot

  function Shipped(inst: seq<Pkg>, base: seq<Pkg>, debug: bool): (r: set<Pkg>)
    ensures forall q :: q in r <==> Ships(inst, base, debug, q)
  {
    IndexOfList(inst);
    set q | q in inst && Ships(inst, base, debug, q)
  }

  /** The version recorded last, or else that of the base image. */
  function Present(d: Device): int {
    match d.current case Some(v) => v case None => d.base.image.version
  }

  /** `is_downgrade` and `is_downgrade_allowed` */
  predicate Rejected(d: Device, version: int) {
    version < Present(d) && !d.downgradeAllowed
  }

  function ApplyImage(d: Device, image: Image): Device {
    d.(installed := Applied(d.installed, Available(d), image.pkgs), current := Some(image.version))
  }

  /** An update is unpacked over what is in its directory. */
  function Store(d: Device, image: Image, repo: set<Pkg>): Device {
    d.(updates := d.updates[Key(image) := Stored(image, repo)])
  }

  /** `action_select` with an update, and `apply_snapshot`. */
  function React(d: Device, e: Event): Device {
    match e
    case Update(image, from, debug) =>
      if Lookup(d, from) == None || Rejected(d, image.version) then d
      else
        ApplyImage(Store(d, image, Shipped(image.pkgs, Lookup(d, from).value.image.pkgs, debug)), image)
    case Snapshot(ver) =>
      if Lookup(d, ver) == None then d else ApplyImage(d, Lookup(d, ver).value.image)
  }

  // --------------------------------------------------- what stays in repositories

  /** Some snapshot lists `p`. */
  ghost predicate Mentioned(d: Device, p: Pkg) {
    exists ver :: Lookup(d, ver).Some? && p in Lookup(d, ver).value.image.pkgs
  }

  /** Every version of every snapshot is still in some repository. */
  ghost predicate Retrievable(d: Device) {
    forall p :: Mentioned(d, p) ==> p in Available(d)
  }

  ghost predicate Inv(d: Device) {
    DistinctNames(d.base.image.pkgs) && forall k :: k in d.updates ==> DistinctNames(d.updates[k].image.pkgs)
  }

  /** Some snapshot other than the one kept under `k` lists `p`. */
  ghost predicate MentionedElsewhere(d: Device, k: string, p: Pkg) {
    exists ver :: (ver != k || k == BASE_VERSION) && Lookup(d, ver).Some? && p in Lookup(d, ver).value.image.pkgs
  }

  /** Some repository other than the one kept under `k` has `p`. */
  ghost predicate AvailableElsewhere(d: Device, k: string, p: Pkg) {
    p in d.base.repo || exists k' :: k' in d.updates && k' != k && p in d.updates[k'].repo
  }

  /** The new image can be applied as a snapshot. */
  predicate Visible(image: Image) {
    Key(image) != BASE_VERSION
  }

  /** Whatever the update downgrades, another repository has. */
  ghost predicate DowngradesKnown(d: Device, image: Image, from: string) {
    Lookup(d, from).Some? ==>
      forall p :: p in image.pkgs && Downgraded(Index(Lookup(d, from).value.image.pkgs), Index(image.pkgs), p.name)
                  ==> AvailableElsewhere(d, Key(image), p)
  }

  /** What only the replaced repository had, if there was one, is shipped again as
      far as the new image or another snapshot lists it. */
  ghost predicate ReplacesWell(d: Device, image: Image, from: string, debug: bool) {
    var k := Key(image);
    Lookup(d, from).Some? && k in d.updates ==>
      forall p :: p in d.updates[k].repo && !AvailableElsewhere(d, k, p)
                  && (MentionedElsewhere(d, k, p) || (Visible(image) && p in image.pkgs))
                  ==> Ships(image.pkgs, Lookup(d, from).value.image.pkgs, debug, p)
  }

  /** The update is generated against a snapshot of the device, and it keeps all
      snapshots. */
  ghost predicate Fair(d: Device, e: Event) {
    match e
    case Update(image, from, debug) =>
      && Lookup(d, from).Some? && DistinctNames(image.pkgs)
      && (Visible(image) ==> DowngradesKnown(d, image, from))
      && ReplacesWell(d, image, from, debug)
    case Snapshot(ver) => true
  }

  lemma AvailableSplits(d: Device, k: string, p: Pkg)
    ensures p in Available(d) <==> AvailableElsewhere(d, k, p) || (k in d.updates && p in d.updates[k].repo)
  {
  }

  lemma AvailableAfterStore(d: Device, image: Image, repo: set<Pkg>, p: Pkg)
    ensures p in Available(Store(d, image, repo)) <==> AvailableElsewhere(d, Key(image), p) || p in repo
  {
    hide Key;
    var k, e := Key(image), Store(d, image, repo);
    AvailableSplits(e, k, p);
    assert forall k' | k' != k :: k' in e.updates <==> k' in d.updates;
    if AvailableElsewhere(d, k, p) && p !in d.base.repo {
      var k' :| k' in d.updates && k' != k && p in d.updates[k'].repo;
      assert p in e.updates[k'].repo;
    }
  }

  lemma LookupAfterStore(d: Device, image: Image, repo: set<Pkg>, ver: string)
    ensures Lookup(Store(d, image, repo), ver)
            == if ver == Key(image) && Visible(image) then Some(Stored(image, repo)) else Lookup(d, ver)
  {
    hide Key;
  }

  lemma MentionedAfterStore(d: Device, image: Image, repo: set<Pkg>, p: Pkg)
    ensures Mentioned(Store(d, image, repo), p)
            <==> MentionedElsewhere(d, Key(image), p) || (Visible(image) && p in image.pkgs)
  {
    hide Key;
    var k, e := Key(image), Store(d, image, repo);
    forall ver
      ensures Lookup(e, ver) == if ver == k && Visible(image) then Some(Stored(image, repo)) else Lookup(d, ver)
    {
      LookupAfterStore(d, image, repo, ver);
    }
    hide Lookup, Store;
    if Visible(image) && p in image.pkgs {
      assert p in Lookup(e, k).value.image.pkgs;
    }
    if MentionedElsewhere(d, k, p) {
      var ver :| (ver != k || k == BASE_VERSION) && Lookup(d, ver).Some? && p in Lookup(d, ver).value.image.pkgs;
      assert Lookup(e, ver) == Lookup(d, ver);
    }
  }

  lemma ElsewhereIsMentioned(d: Device, k: string, p: Pkg)
    ensures MentionedElsewhere(d, k, p) ==> Mentioned(d, p)
  {
  }

  /** For one version: after the update a repository has it. */
  lemma ListedAfterUpdate(d: Device, image: Image, from: string, debug: bool, p: Pkg)
    requires Inv(d) && Retrievable(d) && Lookup(d, from).Some? && DistinctNames(image.pkgs) && p in image.pkgs
    ensures var base := Lookup(d, from).value.image.pkgs;
            if Downgraded(Index(base), Index(image.pkgs), p.name) then !Ships(image.pkgs, base, debug, p)
            else Ships(image.pkgs, base, debug, p) || p in Available(d)
  {
    hide Available;
    var base := Lookup(d, from).value.image.pkgs;
    assert DistinctNames(base);
    IndexOfList(base);
    IndexOfList(image.pkgs);
    ShippedOrOld(base, image.pkgs, Shipped(image.pkgs, base, debug), debug, p.name);
    hide Index, Ships;
    if p in base {
      assert Mentioned(d, p);
    }
  }

  /** An update keeps every snapshot retrievable exactly if its downgrades are
      known and it replaces well. */
  lemma UpdateKeepsRetrievable(d: Device, image: Image, from: string, debug: bool)
    requires Inv(d) && Retrievable(d) && Lookup(d, from).Some? && DistinctNames(image.pkgs)
    requires !Rejected(d, image.version)
    ensures var after := React(d, Update(image, from, debug));
            Inv(after) && (Retrievable(after) <==> Fair(d, Update(image, from, debug)))
  {
    hide Index, Ships, Key, Available, Lookup, DistinctNames, MentionedElsewhere, AvailableElsewhere, Mentioned;
    hide Downgraded;
    var k, base := Key(image), Lookup(d, from).value.image.pkgs;
    var repo := Shipped(image.pkgs, base, debug);
    var after := Store(d, image, repo);
    SameStore(after, image);
    forall p
      ensures p in Available(after) <==> AvailableElsewhere(d, k, p) || Ships(image.pkgs, base, debug, p)
      ensures Mentioned(after, p) <==> MentionedElsewhere(d, k, p) || (Visible(image) && p in image.pkgs)
      ensures p in Available(d) <==> AvailableElsewhere(d, k, p) || (k in d.updates && p in d.updates[k].repo)
      ensures MentionedElsewhere(d, k, p) ==> p in Available(d)
      ensures p in image.pkgs ==>
                if Downgraded(Index(base), Index(image.pkgs), p.name) then !Ships(image.pkgs, base, debug, p)
                else Ships(image.pkgs, base, debug, p) || p in Available(d)
    {
      AvailableAfterStore(d, image, repo, p);
      MentionedAfterStore(d, image, repo, p);
      AvailableSplits(d, k, p);
      ElsewhereIsMentioned(d, k, p);
      if p in image.pkgs {
        ListedAfterUpdate(d, image, from, debug, p);
      }
    }
  }

  /** Applying changes no repository and no snapshot. */
  lemma SameStore(d: Device, image: Image)
    ensures var e := ApplyImage(d, image);
            && Available(e) == Available(d) && (Retrievable(e) <==> Retrievable(d)) && (Inv(e) <==> Inv(d))
            && forall ver :: Lookup(e, ver) == Lookup(d, ver)
  {
    hide Applied;
    var e := ApplyImage(d, image);
    assert forall p :: p in Available(e) <==> p in Available(d);
    assert forall ver :: Lookup(e, ver) == Lookup(d, ver);
    assert forall p :: Mentioned(e, p) <==> Mentioned(d, p);
  }

  // ------------------------------------------------------------ whole histories

  function ReactAll(d: Device, es: seq<Event>): Device {
    if es == [] then d else React(ReactAll(d, Front(es)), Last(es))
  }

  ghost predicate AllFair(d: Device, es: seq<Event>) {
    es == [] || (AllFair(d, Front(es)) && Fair(ReactAll(d, Front(es)), Last(es)))
  }

  lemma {:induction false} HistoryStaysRetrievable(d: Device, es: seq<Event>)
    requires Inv(d) && Retrievable(d) && AllFair(d, es)
    ensures Inv(ReactAll(d, es)) && Retrievable(ReactAll(d, es))
  {
    hide Inv, Retrievable, Available, Key, Lookup, Index, Ships, Applied;
    if es != [] {
      HistoryStaysRetrievable(d, Front(es));
      OneEvent(ReactAll(d, Front(es)), Last(es));
    }
  }

  lemma OneEvent(d: Device, e: Event)
    requires Inv(d) && Retrievable(d) && Fair(d, e)
    ensures Inv(React(d, e)) && Retrievable(React(d, e))
  {
    hide Inv, Retrievable, Available, Key, Lookup, Index, Ships, Applied;
    match e
    case Update(image, from, debug) =>
      if !Rejected(d, image.version) {
        UpdateKeepsRetrievable(d, image, from, debug);
      }
    case Snapshot(ver) =>
      if Lookup(d, ver).Some? {
        SameStore(d, Lookup(d, ver).value.image);
      }
  }

  lemma SnapshotOfRetrievable(d: Device, ver: string)
    requires Inv(d) && Retrievable(d) && Lookup(d, ver).Some?
    ensures React(d, Snapshot(ver)).installed == Index(Lookup(d, ver).value.image.pkgs)
  {
    hide Available, Index, Applied, DistinctNames;
    var pkgs := Lookup(d, ver).value.image.pkgs;
    forall p | p in pkgs ensures p in Available(d) {
      assert Mentioned(d, p);
    }
    ApplyReaches(d.installed, Available(d), pkgs);
  }

  /** Rollback: after any history, applying any snapshot leaves exactly the
      packages of that snapshot. */
  lemma AnySnapshotCanBeApplied(d: Device, es: seq<Event>, ver: string)
    requires Inv(d) && Retrievable(d) && AllFair(d, es)
    requires Lookup(ReactAll(d, es), ver).Some?
    ensures React(ReactAll(d, es), Snapshot(ver)).installed
            == Index(Lookup(ReactAll(d, es), ver).value.image.pkgs)
  {
    hide Inv, Retrievable, Lookup, React;
    HistoryStaysRetrievable(d, es);
    SnapshotOfRetrievable(ReactAll(d, es), ver);
  }

  /** And an update that is not rejected installs exactly its own list. */
  lemma UpdateInstallsItsList(d: Device, es: seq<Event>, image: Image, from: string, debug: bool)
    requires Inv(d) && Retrievable(d) && AllFair(d, es)
    requires Fair(ReactAll(d, es), Update(image, from, debug)) && !Rejected(ReactAll(d, es), image.version)
    requires Visible(image)
    ensures React(ReactAll(d, es), Update(image, from, debug)).installed == Index(image.pkgs)
  {
    var mid := ReactAll(d, es);
    HistoryStaysRetrievable(d, es);
    hide Inv, Retrievable, Available, Key, Index, Ships, Applied, DistinctNames, Lookup;
    UpdateKeepsRetrievable(mid, image, from, debug);
    var repo := Shipped(image.pkgs, Lookup(mid, from).value.image.pkgs, debug);
    var stored := Store(mid, image, repo);
    SameStore(stored, image);
    LookupAfterStore(mid, image, repo, Key(image));
    assert React(mid, Update(image, from, debug)).installed == Applied(mid.installed, Available(stored), image.pkgs);
    forall p | p in image.pkgs ensures p in Available(stored) {
      ListedIsAvailable(stored, Key(image), p);
    }
    ApplyReaches(mid.installed, Available(stored), image.pkgs);
  }

  lemma ListedIsAvailable(d: Device, ver: string, p: Pkg)
    requires Retrievable(d) && Lookup(d, ver).Some? && p in Lookup(d, ver).value.image.pkgs
    ensures p in Available(d)
  {
    hide Available, Lookup;
    assert Mentioned(d, p);
  }

  // -------------------------------------- what a missing version means for a device

  /** After every history of updates that keep the snapshots there are, every
      snapshot can be applied. */
  ghost predicate Restorable(d: Device) {
    forall es, ver :: AllFair(d, es) && Lookup(ReactAll(d, es), ver).Some? ==>
      React(ReactAll(d, es), Snapshot(ver)).installed == Index(Lookup(ReactAll(d, es), ver).value.image.pkgs)
  }

  function Without(pkgs: seq<Pkg>, p: Pkg): seq<Pkg> {
    if pkgs == [] then []
    else Without(Front(pkgs), p) + if Last(pkgs) == p then [] else [Last(pkgs)]
  }

  lemma {:induction false} WithoutElements(pkgs: seq<Pkg>, p: Pkg)
    ensures forall q :: q in Without(pkgs, p) <==> q in pkgs && q != p
  {
    if pkgs != [] {
      WithoutElements(Front(pkgs), p);
      assert pkgs == Front(pkgs) + [Last(pkgs)];
    }
  }

  function Letters(n: nat): (s: string)
    ensures |s| == n
  {
    seq(n, _ => 'a')
  }

  lemma {:induction false} LongerThanAll(keys: set<string>) returns (n: nat)
    ensures forall k :: k in keys ==> |k| <= n
  {
    n := 0;
    if keys != {} {
      var k :| k in keys;
      n := LongerThanAll(keys - {k});
      n := if |k| > n then |k| else n;
    }
  }

  /** There is always an update directory that is not used yet. */
  lemma UnusedKey(d: Device, version: int, pkgs: seq<Pkg>) returns (image: Image)
    ensures image.version == version && image.pkgs == pkgs
    ensures Key(image) !in d.updates && Visible(image)
  {
    var n := LongerThanAll(d.updates.Keys + {BASE_VERSION});
    image := Image("", Letters(n), version, pkgs);
    assert |Key(image)| == n + 1;
    assert BASE_VERSION in d.updates.Keys + {BASE_VERSION};
  }

  /** An update that takes one package away downgrades and ships nothing. */
  lemma TakingAway(pkgs: seq<Pkg>, p: Pkg)
    requires DistinctNames(pkgs) && p in pkgs
    ensures var rest := Without(pkgs, p);
            && DistinctNames(rest) && !Listed(rest, p.name)
            && (forall name :: !Downgraded(Index(pkgs), Index(rest), name))
            && !Ships(rest, pkgs, false, p)
  {
    var rest := Without(pkgs, p);
    WithoutElements(pkgs, p);
    IndexOfList(pkgs);
    IndexOfList(rest);
    forall name ensures !Downgraded(Index(pkgs), Index(rest), name) {
      if name in Index(rest) {
        assert Pkg(name, Index(rest)[name]) in pkgs;
      }
    }
  }

  lemma PurgedAndMissing(installed: Packages, available: set<Pkg>, pkgs: seq<Pkg>, p: Pkg)
    requires DistinctNames(pkgs) && p in pkgs && p !in available && p.name !in installed
    ensures p.name !in Applied(installed, available, pkgs) && p.name in Index(pkgs)
  {
    hide Index, Marked;
    IndexOfList(pkgs);
    MarkedIsLastObtainable(installed, available, pkgs, p.name);
  }

  lemma NotListedIsPurged(installed: Packages, available: set<Pkg>, pkgs: seq<Pkg>, name: string)
    requires !Listed(pkgs, name)
    ensures name !in Applied(installed, available, pkgs)
  {
  }

  /** If no repository has a version of a snapshot, one fair update is enough to
      take the package off the device, and the snapshot does not bring it back. */
  lemma MissingIsMissed(d: Device, ver: string, p: Pkg) returns (e: Event)
    requires Inv(d) && Lookup(d, ver).Some? && p in Lookup(d, ver).value.image.pkgs && p !in Available(d)
    ensures Fair(d, e) && Lookup(React(d, e), ver) == Lookup(d, ver)
    ensures p.name !in React(React(d, e), Snapshot(ver)).installed
    ensures p.name in Index(Lookup(d, ver).value.image.pkgs)
  {
    hide Index, Ships, Applied, Key, Available, DistinctNames, Listed, Downgraded, Without;
    var pkgs := Lookup(d, ver).value.image.pkgs;
    var rest := Without(pkgs, p);
    assert DistinctNames(pkgs);
    TakingAway(pkgs, p);
    var image := UnusedKey(d, Present(d), rest);
    e := Update(image, ver, false);
    var repo := Shipped(rest, pkgs, false);
    var stored := Store(d, image, repo);
    var after := ApplyImage(stored, image);
    assert React(d, e) == after;
    SameStore(stored, image);
    AvailableAfterStore(d, image, repo, p);
    AvailableSplits(d, Key(image), p);
    LookupAfterStore(d, image, repo, ver);
    assert Lookup(after, ver) == Lookup(d, ver);
    NotListedIsPurged(d.installed, Available(stored), rest, p.name);
    PurgedAndMissing(after.installed, Available(after), pkgs, p);
  }

  /** A device is restorable exactly if every version of every snapshot is still in
      some repository. */
  lemma RetrievableIsRestorable(d: Device)
    requires Inv(d)
    ensures Retrievable(d) <==> Restorable(d)
  {
    hide Inv, Lookup, React, Index, Available, Fair;
    if Retrievable(d) {
      forall es, ver | AllFair(d, es) && Lookup(ReactAll(d, es), ver).Some?
        ensures React(ReactAll(d, es), Snapshot(ver)).installed
                == Index(Lookup(ReactAll(d, es), ver).value.image.pkgs)
      {
        AnySnapshotCanBeApplied(d, es, ver);
      }
    } else {
      var p :| Mentioned(d, p) && p !in Available(d);
      var ver :| Lookup(d, ver).Some? && p in Lookup(d, ver).value.image.pkgs;
      var e := MissingIsMissed(d, ver, p);
      var es := [e];
      assert Front(es) == [] && Last(es) == e;
      assert AllFair(d, Front(es)) && ReactAll(d, Front(es)) == d;
      assert AllFair(d, es) && ReactAll(d, es) == React(d, e);
    }
  }

  // -------------------------------------------------------------------- downgrades

  /** On a device that allows no downgrades, an update to a version below the present
      one changes nothing; every other update, and on a device that allows them every
      update at all, is stored and becomes the present version. */
  lemma OnlyDowngradesAreRejected(d: Device, image: Image, from: string, debug: bool)
    requires Lookup(d, from).Some?
    ensures var e := React(d, Update(image, from, debug));
            var present := match d.current case Some(v) => v case None => d.base.image.version;
            if image.version < present && !d.downgradeAllowed then e == d
            else
              && Key(image) in e.updates && e.updates[Key(image)].image == image
              && e.current == Some(image.version) && Present(e) == image.version
  {
    hide Key, Applied, Available, Ships;
  }

  predicate OnlyUpdates(es: seq<Event>) {
    forall e :: e in es ==> e.Update?
  }

  /** Over every history of updates the version never falls, unless the device allows
      downgrades. */
  lemma {:induction false} VersionNeverFalls(d: Device, es: seq<Event>)
    requires OnlyUpdates(es) && !d.downgradeAllowed
    ensures Present(ReactAll(d, es)) >= Present(d) && !ReactAll(d, es).downgradeAllowed
  {
    hide React;
    if es != [] {
      assert es == Front(es) + [Last(es)];
      VersionNeverFalls(d, Front(es));
      var mid, e := ReactAll(d, Front(es)), Last(es);
      assert e.Update?;
      if Lookup(mid, e.from).Some? {
        OnlyDowngradesAreRejected(mid, e.image, e.from, e.debug);
      }
      KeepsSettings(mid, e);
    }
  }

  lemma KeepsSettings(d: Device, e: Event)
    ensures React(d, e).downgradeAllowed == d.downgradeAllowed && React(d, e).base == d.base
    ensures e.Update? && Lookup(d, e.from) == None ==> React(d, e) == d
  {
    hide Key, Applied, Available, Ships;
  }

  /** A snapshot may go back, whatever the device allows. */
  lemma SnapshotGoesBack(d: Device, ver: string)
    requires Lookup(d, ver).Some?
    ensures Present(React(d, Snapshot(ver))) == Lookup(d, ver).value.image.version
    ensures React(d, Snapshot(ver)).updates == d.updates
    ensures Lookup(d, "base_version") == Some(d.base)
  {
    hide Applied, Available;
  }

  // ----------------------------------------------------------------- the base image

  /** The base repository: what could be downloaded of the installed packages. */
  method BaseRepo(pkglist: seq<Pkg>, failing: set<Pkg>) returns (repo: set<Pkg>)
    ensures repo == Downloaded(pkglist, failing)
  {
    repo := {};
    for i := 0 to |pkglist|
      invariant repo == Downloaded(pkglist[..i], failing)
    {
      assert pkglist[..i + 1] == pkglist[..i] + [pkglist[i]];
      if pkglist[i] !in failing {
        repo := repo + {pkglist[i]};
      }
    }
    assert pkglist[..|pkglist|] == pkglist;
  }

  function Downloaded(pkglist: seq<Pkg>, failing: set<Pkg>): set<Pkg> {
    set p | p in pkglist && p !in failing
  }

  /** A device right after its image was built. */
  function Built(image: Image, failing: set<Pkg>, downgradeAllowed: bool): Device {
    Device(Index(image.pkgs), Stored(image, Downloaded(image.pkgs, failing)), map[], None, downgradeAllowed)
  }

  /** All its snapshots can be applied after every history exactly if no download
      failed. */
  lemma BaseImageIsRestorable(image: Image, failing: set<Pkg>, downgradeAllowed: bool)
    requires DistinctNames(image.pkgs)
    ensures Restorable(Built(image, failing, downgradeAllowed))
            <==> forall p :: p in image.pkgs ==> p !in failing
  {
    hide Restorable, Index;
    var d := Built(image, failing, downgradeAllowed);
    RetrievableIsRestorable(d);
    assert forall p :: p in Available(d) <==> p in image.pkgs && p !in failing;
    forall p ensures Mentioned(d, p) <==> p in image.pkgs {
      if p in image.pkgs {
        assert p in Lookup(d, BASE_VERSION).value.image.pkgs;
      }
    }
  }

  // ------------------------------------------------------------------- the service

  /** The update service, with its state in fields. */
  class UpdateService {
    var installed: Packages
    var updates: map<string, Stored>
    var current: Option<int>
    const base: Stored
    const downgradeAllowed: bool

    ghost function State(): Device
      reads this
    {
      Device(installed, base, updates, current, downgradeAllowed)
    }

    constructor (image: Image, failing: set<Pkg>, downgradeAllowed: bool)
      ensures State() == Built(image, failing, downgradeAllowed)
    {
      var repo := BaseRepo(image.pkgs, failing);
      installed, updates, current := Index(image.pkgs), map[], None;
      base := Stored(image, repo);
      this.downgradeAllowed := downgradeAllowed;
    }

    /** `hlCache` are the names of the package cache, in any order. */
    method Apply(image: Image, hlCache: seq<string>)
      requires forall n :: n in hlCache <==> n in Known(installed, Available(State()))
      modifies this
      ensures State() == ApplyImage(old(State()), image)
    {
      var available := base.repo + set k, p | k in updates && p in updates[k].repo :: p;
      assert available == Available(State());
      installed := ApplyUpdate(installed, available, image.pkgs, hlCache);
      current := Some(image.version);
    }

    method RejectDowngrade(version: int) returns (rejected: bool)
      ensures rejected == Rejected(State(), version)
    {
      var present := match current case Some(v) => v case None => base.image.version;
      rejected := version < present && !downgradeAllowed;
    }

    /** `repo` are the debs of the update's repository. */
    method ActionSelect(image: Image, repo: set<Pkg>, hlCache: seq<string>)
      requires forall n :: n in hlCache <==> n in Known(installed, Available(Store(State(), image, repo)))
      modifies this
      ensures forall from, debug | Lookup(old(State()), from).Some?
                && repo == Shipped(image.pkgs, Lookup(old(State()), from).value.image.pkgs, debug) ::
                State() == React(old(State()), Update(image, from, debug))
    {
      hide Available, Applied;
      var rejected := RejectDowngrade(image.version);
      if !rejected {
        var name := FnameReplace(image.name);
        var release := FnameReplace(image.release);
        updates := updates[name + "_" + release := Stored(image, repo)];
        assert State() == Store(old(State()), image, repo);
        Apply(image, hlCache);
      }
    }

    method ApplySnapshot(ver: string, hlCache: seq<string>)
      requires forall n :: n in hlCache <==> n in Known(installed, Available(State()))
      modifies this
      ensures State() == React(old(State()), Snapshot(ver))
    {
      hide Available, Applied;
      if ver == BASE_VERSION {
        Apply(base.image, hlCache);
      } else if ver in updates {
        Apply(updates[ver].image, hlCache);
      }
    }
  }

  /** Only letters, digits and three signs come through. */
  lemma WhatIsAllowed(c: char)
    ensures Allowed(c) <==> c in "abcdefghijklmnopqrstuvwxyz" || c in "ABCDEFGHIJKLMNOPQRSTUVWXYZ"
                            || c in "0123456789" || c in "_-."
  {
    Small(c);
    Capital(c);
    Digit(c);
  }

  /** A name and a version of such characters are joined by an underscore. */
  lemma KeyOfPlain(image: Image)
    requires forall c :: c in image.name + image.release ==> Allowed(c)
    ensures Key(image) == image.name + "_" + image.release
  {
    assert forall i :: 0 <= i < |image.name| ==> image.name[i] in image.name + image.release;
    assert forall i :: 0 <= i < |image.release| ==> image.release[i] in image.name + image.release;
    assert Replaced(image.name) == image.name && Replaced(image.release) == image.release;
  }

  lemma Small(c: char)
    ensures 'a' <= c <= 'z' <==> c in "abcdefghijklmnopqrstuvwxyz"
  {
    var s := "abcdefghijklmnopqrstuvwxyz";
    if 'a' <= c <= 'z' {
      assert s[c as int - 'a' as int] == c;
    }
  }

  lemma Capital(c: char)
    ensures 'A' <= c <= 'Z' <==> c in "ABCDEFGHIJKLMNOPQRSTUVWXYZ"
  {
    var s := "ABCDEFGHIJKLMNOPQRSTUVWXYZ";
    if 'A' <= c <= 'Z' {
      assert s[c as int - 'A' as int] == c;
    }
  }

  lemma Digit(c: char)
    ensures '0' <= c <= '9' <==> c in "0123456789"
  {
    var s := "0123456789";
    if '0' <= c <= '9' {
      assert s[c as int - '0' as int] == c;
    }
  }

  // ------------------------------------------------------------------- examples

  lemma IndexOfOne(p: Pkg)
    ensures Index([p]) == map[p.name := p.version] && Index([]) == map[] && DistinctNames([p])
  {
    assert [p][..0] == [];
  }

  lemma IndexOfTwo(p: Pkg, q: Pkg)
    requires p.name != q.name
    ensures Index([p, q]) == map[p.name := p.version, q.name := q.version] && DistinctNames([p, q])
  {
    IndexOfOne(p);
    hide Index;
    assert [p, q][..1] == [p];
    IndexSnoc([p], q);
    assert [p, q] == [p] + [q];
  }

  lemma IndexSnoc(pkgs: seq<Pkg>, p: Pkg)
    ensures Index(pkgs + [p]) == Index(pkgs)[p.name := p.version]
  {
    assert (pkgs + [p])[..|pkgs|] == pkgs;
  }

  lemma NothingListed(installed: Packages, available: set<Pkg>)
    ensures Applied(installed, available, []) == map[]
  {
  }

  lemma OneListed(installed: Packages, available: set<Pkg>, p: Pkg)
    requires forall name :: name in Known(installed, available) ==> name == p.name
    ensures Applied(installed, available, [p])
            == if HasVersion(installed, available, p) then map[p.name := p.version] else installed
  {
    IndexOfOne(p);
    MarkedIsLastObtainable(installed, available, [p], p.name);
    hide Marked, Index;
    assert Listed([p], p.name) by { assert p in [p]; }
    assert forall name :: Listed([p], name) ==> name == p.name;
    assert p in available ==> p.name in Known(installed, available);
  }

  /** For example: the only package could not be downloaded. An update to an image
      without it and back to the base image leaves the device without it. */
  lemma FailedDownloadIsMissed(p: Pkg)
    ensures var d := Built(Image("n", "1", 1, [p]), {p}, true);
            var e := Update(Image("n", "2", 2, []), BASE_VERSION, false);
            && Fair(d, e) && React(React(d, e), Snapshot(BASE_VERSION)).installed == map[]
            && Index(Lookup(d, BASE_VERSION).value.image.pkgs) == map[p.name := p.version]
  {
    var d := Built(Image("n", "1", 1, [p]), {p}, true);
    var image := Image("n", "2", 2, []);
    IndexOfOne(p);
    hide Key, Index, Applied;
    var repo := Shipped([], [p], false);
    NothingIsShipped([p], repo);
    var stored := Store(d, image, repo);
    NothingListed(d.installed, Available(stored));
    var after := ApplyImage(stored, image);
    SameStore(stored, image);
    assert after == React(d, Update(image, BASE_VERSION, false)) && after.installed == map[];
    forall q ensures q !in Available(stored) {
      AvailableAfterStore(d, image, repo, q);
    }
    KnownNothing(Available(after));
    OneListed(map[], Available(after), p);
  }

  lemma NothingIsShipped(base: seq<Pkg>, repo: set<Pkg>)
    requires forall q :: q in repo <==> Ships([], base, false, q)
    ensures repo == {}
  {
    assert Index([]) == map[];
  }

  lemma KnownNothing(available: set<Pkg>)
    requires forall q :: q !in available
    ensures Known(map[], available) == {}
  {
  }

  lemma OneShipped(old': Pkg, new': Pkg, repo: set<Pkg>)
    requires old'.name == new'.name && forall q :: q in repo <==> Ships([new'], [old'], false, q)
    ensures repo == if new'.version > old'.version then {new'} else {}
  {
    IndexOfOne(new');
    IndexOfOne(old');
    hide Index;
    assert Listed([old'], new'.name) by { assert old' in [old']; }
    forall q ensures q in repo <==> q == new' && new'.version > old'.version {
      assert Ships([new'], [old'], false, q) <==> IsUpgrade(Index([new']), old', false, q);
    }
  }

  /** For example: an update that downgrades the only package to a version which no
      repository has installs nothing, and its image is not restorable. */
  lemma DowngradeIsMissed(name: string)
    ensures var d := Built(Image("n", "1", 1, [Pkg(name, 2)]), {}, true);
            var image := Image("n", "2", 2, [Pkg(name, 1)]);
            var after := React(d, Update(image, BASE_VERSION, false));
            && Retrievable(d) && !Fair(d, Update(image, BASE_VERSION, false))
            && after.installed == map[name := 2] && Index(image.pkgs) == map[name := 1]
            && !Restorable(after)
  {
    var two, one := Pkg(name, 2), Pkg(name, 1);
    var d := Built(Image("n", "1", 1, [two]), {}, true);
    var image := Image("n", "2", 2, [one]);
    var e := Update(image, BASE_VERSION, false);
    IndexOfOne(two);
    IndexOfOne(one);
    BuiltIsRetrievable(Image("n", "1", 1, [two]));
    var repo := Shipped([one], [two], false);
    OneShipped(two, one, repo);
    var stored := Store(d, image, repo);
    ShortIsVisible(image);
    assert !Fair(d, e) by {
      assert one in image.pkgs && Downgraded(Index([two]), Index([one]), name);
      assert !AvailableElsewhere(d, Key(image), one);
    }
    UpdateKeepsRetrievable(d, image, BASE_VERSION, false);
    hide Key, Index, Applied, Restorable;
    forall q ensures q in Available(stored) <==> q == two {
      AvailableAfterStore(d, image, repo, q);
    }
    OneListed(d.installed, Available(stored), one);
    RetrievableIsRestorable(React(d, e));
  }

  lemma BuiltIsRetrievable(image: Image)
    requires DistinctNames(image.pkgs)
    ensures Inv(Built(image, {}, true)) && Retrievable(Built(image, {}, true))
  {
    var d := Built(image, {}, true);
    assert forall p :: p in image.pkgs ==> p in Available(d);
  }

  lemma ShortIsVisible(image: Image)
    requires |image.name| + |image.release| < 11
    ensures Visible(image)
  {
    assert |BASE_VERSION| == 12;
  }

  lemma KeysDiffer(a: Image, b: Image, c: char, e: char)
    requires a.release == [c] && b.release == [e] && c != e && Allowed(c) && Allowed(e)
    ensures Key(a) != Key(b)
  {
    assert Front([c]) == "" && Front([e]) == "" && Replaced("") == "";
    assert Key(a)[|Key(a)| - 1] == c && Key(b)[|Key(b)| - 1] == e;
  }

  lemma TwoShipped(x: Pkg, y: Pkg, repo: set<Pkg>)
    requires x.name != y.name && forall q :: q in repo <==> Ships([x, y], [x], false, q)
    ensures repo == {y}
  {
    IndexOfOne(x);
    IndexOfTwo(x, y);
    hide Index;
    assert Listed([x], x.name) by { assert x in [x]; }
    assert !Listed([x], y.name);
    forall q ensures q in repo <==> q == y {
      assert Ships([x, y], [x], false, q) <==> (q in [x, y] && !Listed([x], q.name))
                                               || IsUpgrade(Index([x, y]), x, false, q);
    }
  }

  lemma OneOfTwoIsMissing(installed: Packages, available: set<Pkg>, x: Pkg, y: Pkg, other: Version)
    requires x.name != y.name && installed == map[x.name := other] && other != x.version
    requires x !in available && y in available
    requires forall name :: name in Known(installed, available) ==> name == x.name || name == y.name
    ensures Applied(installed, available, [x, y]) == map[x.name := other, y.name := y.version]
  {
    IndexOfTwo(x, y);
    MarkedIsLastObtainable(installed, available, [x, y], x.name);
    MarkedIsLastObtainable(installed, available, [x, y], y.name);
    hide Marked, Index;
    assert Listed([x, y], x.name) by { assert x in [x, y]; }
    assert Listed([x, y], y.name) by { assert y in [x, y]; }
    assert y.name in Known(installed, available) && x.name in Known(installed, available);
  }

  /** The three updates below, with the third in the directory of the first. */
  lemma ReusedDirectory(one: Image, two: Image, three: Image, again: Image, x: string, y: string)
    requires x != y && one.pkgs == [Pkg(x, 1)] && two.pkgs == [Pkg(x, 2)]
    requires three.pkgs == [Pkg(x, 2), Pkg(y, 1)] && again.pkgs == [Pkg(x, 3)]
    requires Key(again) == Key(two) && Key(three) != Key(two) && Visible(two) && Visible(three)
    ensures var d := Built(one, {}, true);
            var d1 := React(d, Update(two, BASE_VERSION, false));
            var d2 := React(d1, Update(three, Key(two), false));
            var d3 := React(d2, Update(again, BASE_VERSION, false));
            && Lookup(d3, Key(three)).Some? && Lookup(d3, Key(three)).value.image == three
            && React(d3, Snapshot(Key(three))).installed == map[x := 3, y := 1]
  {
    hide Key, Index, Applied, Ships, DistinctNames, React, Available;
    var d := Built(one, {}, true);
    var x1, x2, x3, y1 := Pkg(x, 1), Pkg(x, 2), Pkg(x, 3), Pkg(y, 1);
    var r1, r2, r3 := Shipped([x2], [x1], false), Shipped([x2, y1], [x2], false), Shipped([x3], [x1], false);
    AfterUpdate(d, two, BASE_VERSION);
    var d1 := React(d, Update(two, BASE_VERSION, false));
    assert d1.updates == map[Key(two) := Stored(two, r1)];
    AfterUpdate(d1, three, Key(two));
    var d2 := React(d1, Update(three, Key(two), false));
    assert d2.updates == map[Key(two) := Stored(two, r1), Key(three) := Stored(three, r2)];
    AfterUpdate(d2, again, BASE_VERSION);
    var d3 := React(d2, Update(again, BASE_VERSION, false));
    assert d3.updates == map[Key(two) := Stored(again, r3), Key(three) := Stored(three, r2)];
    TwoShipped(x2, y1, r2);
    OneShipped(x1, x3, r3);
    ThreeRepos(d3, Key(two), Key(three), {x1}, r3, r2);
    assert Available(d3) == {x1, x3, y1};
    IndexOfOne(x3);
    ApplyReaches(d2.installed, Available(d3), [x3]);
    KnownOfThree(d3.installed, x1, x3, y1);
    OneOfTwoIsMissing(d3.installed, Available(d3), x2, y1, 3);
    SnapshotApplies(d3, Key(three));
  }

  lemma AfterUpdate(d: Device, image: Image, from: string)
    requires d.downgradeAllowed && Lookup(d, from).Some?
    ensures var e := React(d, Update(image, from, false));
            var repo := Shipped(image.pkgs, Lookup(d, from).value.image.pkgs, false);
            && e.updates == d.updates[Key(image) := Stored(image, repo)] && e.base == d.base && e.downgradeAllowed
            && e.installed == Applied(d.installed, Available(e), image.pkgs)
  {
    hide Key, Applied, Ships;
    var repo := Shipped(image.pkgs, Lookup(d, from).value.image.pkgs, false);
    SameStore(Store(d, image, repo), image);
  }

  lemma SnapshotApplies(d: Device, ver: string)
    requires Lookup(d, ver).Some?
    ensures React(d, Snapshot(ver)).installed == Applied(d.installed, Available(d), Lookup(d, ver).value.image.pkgs)
  {
    hide Applied;
  }

  lemma KnownOfThree(installed: Packages, p: Pkg, q: Pkg, r: Pkg)
    requires q.name == p.name && installed.Keys == {p.name}
    ensures forall name :: name in Known(installed, {p, q, r}) ==> name == p.name || name == r.name
  {
  }

  lemma ThreeRepos(d: Device, a: string, b: string, base: set<Pkg>, r: set<Pkg>, s: set<Pkg>)
    requires a != b && d.updates.Keys == {a, b} && d.base.repo == base
    requires d.updates[a].repo == r && d.updates[b].repo == s
    ensures Available(d) == base + r + s
  {
  }

  /** For example: version 2 of `n` is taken again with another list. Its directory
      had the only copy of a package that version 3 lists. */
  lemma ReusedDirectoryIsMissed(x: string, y: string)
    requires x != y
    ensures var d := Built(Image("n", "1", 1, [Pkg(x, 1)]), {}, true);
            var two, again := Image("n", "2", 2, [Pkg(x, 2)]), Image("n", "2", 2, [Pkg(x, 3)]);
            var three := Image("n", "3", 3, [Pkg(x, 2), Pkg(y, 1)]);
            var d1 := React(d, Update(two, BASE_VERSION, false));
            var d2 := React(d1, Update(three, Key(two), false));
            var d3 := React(d2, Update(again, BASE_VERSION, false));
            && Lookup(d3, Key(three)).Some? && Lookup(d3, Key(three)).value.image == three
            && React(d3, Snapshot(Key(three))).installed == map[x := 3, y := 1]
            && Index(three.pkgs) == map[x := 2, y := 1]
            && !Restorable(d3)
  {
    var one := Image("n", "1", 1, [Pkg(x, 1)]);
    var two, again := Image("n", "2", 2, [Pkg(x, 2)]), Image("n", "2", 2, [Pkg(x, 3)]);
    var three := Image("n", "3", 3, [Pkg(x, 2), Pkg(y, 1)]);
    ShortIsVisible(two);
    ShortIsVisible(three);
    KeysDiffer(two, three, '2', '3');
    assert Key(again) == Key(two);
    IndexOfTwo(Pkg(x, 2), Pkg(y, 1));
    hide Key, React, Lookup, Index, Restorable;
    ReusedDirectory(one, two, three, again, x, y);
    var d3 := React(React(React(Built(one, {}, true), Update(two, BASE_VERSION, false)),
                          Update(three, Key(two), false)), Update(again, BASE_VERSION, false));
    var wrong: Packages := map[x := 3, y := 1];
    assert wrong[x] != Index(three.pkgs)[x];
    NotRestorable(d3, Key(three));
  }

  lemma NotRestorable(d: Device, ver: string)
    requires Lookup(d, ver).Some?
    requires React(d, Snapshot(ver)).installed != Index(Lookup(d, ver).value.image.pkgs)
    ensures !Restorable(d)
  {
    hide React, Lookup, Index;
    var es: seq<Event> := [];
    assert AllFair(d, es) && ReactAll(d, es) == d;
  }
}
