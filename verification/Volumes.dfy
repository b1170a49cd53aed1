/** A package repository split over volumes of limited size. */
module Volumes {
  import opened Lists

  datatype Package = Package(name: string, size: nat)

  function Load(volume: seq<Package>): nat {
    if volume == [] then 0 else Load(volume[..|volume| - 1]) + volume[|volume| - 1].size
  }

  function Flatten(volumes: seq<seq<Package>>): seq<Package> {
    if volumes == [] then [] else Flatten(volumes[..|volumes| - 1]) + volumes[|volumes| - 1]
  }

  function Sum(volumes: seq<seq<Package>>): nat {
    if volumes == [] then 0 else Sum(volumes[..|volumes| - 1]) + Load(volumes[|volumes| - 1])
  }

  // ------------------------------------------------- what a volume list satisfies

  /** A volume was only started because the next package did not fit. */
  ghost predicate Needed(volumes: seq<seq<Package>>, maxsize: nat, overhead: nat) {
    forall i :: 0 < i < |volumes| ==>
                  volumes[i] != [] && overhead + Load(volumes[i - 1]) + volumes[i][0].size > maxsize
  }

  ghost predicate AllFit(volumes: seq<seq<Package>>, maxsize: nat, overhead: nat) {
    forall i :: 0 <= i < |volumes| ==> overhead + Load(volumes[i]) <= maxsize
  }

  /** Next-fit: where the package goes. */
  function Include(volumes: seq<seq<Package>>, maxsize: nat, overhead: nat, p: Package): seq<seq<Package>>
    requires volumes != []
  {
    if maxsize > 0 && overhead + Load(Last(volumes)) + p.size > maxsize then volumes + [[p]]
    else Front(volumes) + [Last(volumes) + [p]]
  }

  function IncludeAll(maxsize: nat, overhead: nat, packages: seq<Package>): (volumes: seq<seq<Package>>)
    ensures volumes != []
  {
    if packages == [] then [[]]
    else Include(IncludeAll(maxsize, overhead, Front(packages)), maxsize, overhead, Last(packages))
  }

  /** A limit of 0 is no limit. */
  class Repo {
    const maxsize: nat
    const overhead: nat
    var volumes: seq<seq<Package>>
    var volumeCount: nat

    ghost predicate Valid()
      reads this
    {
      |volumes| == volumeCount + 1 && (maxsize == 0 ==> volumeCount == 0)
    }

    constructor (maxsize: nat, overhead: nat)
      ensures Valid() && volumes == IncludeAll(maxsize, overhead, [])
      ensures this.maxsize == maxsize && this.overhead == overhead
    {
      this.maxsize, this.overhead := maxsize, overhead;
      volumes, volumeCount := [[]], 0;
    }

    function DiskUsage(): nat
      reads this
      requires Valid()
    {
      overhead + Load(volumes[volumeCount])
    }

    method NewRepoVolume()
      requires Valid() && maxsize > 0
      modifies this
      ensures Valid() && volumes == old(volumes) + [[]]
    {
      volumeCount := volumeCount + 1;
      volumes := volumes + [[]];
    }

    method Store(p: Package)
      requires Valid()
      modifies this
      ensures Valid() && volumes == Front(old(volumes)) + [Last(old(volumes)) + [p]]
    {
      volumes := volumes[volumeCount := volumes[volumeCount] + [p]];
    }

    method IncludeDeb(p: Package)
      requires Valid()
      modifies this
      ensures Valid() && volumes == Include(old(volumes), maxsize, overhead, p)
    {
      if maxsize > 0 {
        var newSize := DiskUsage() + p.size;
        if newSize > maxsize {
          NewRepoVolume();
        }
      }
      StoredInNew(old(volumes), p);
      Store(p);
    }

    /** The second check starts a volume only if not even an empty one fits, and
        then it does so every time. */
    method IncludeDsc(p: Package) returns (second: bool)
      requires Valid()
      modifies this
      ensures Valid() && (second <==> 0 < maxsize < overhead)
      ensures !second ==> volumes == Include(old(volumes), maxsize, overhead, p)
      ensures second ==> volumes == old(volumes) + [[], [p]]
    {
      if maxsize > 0 {
        var newSize := DiskUsage() + p.size;
        if newSize > maxsize {
          NewRepoVolume();
        }
      }
      second := maxsize > 0 && DiskUsage() > maxsize;
      if second {
        NewRepoVolume();
      }
      StoredInNew(old(volumes), p);
      StoredInNew(old(volumes) + [[]], p);
      Store(p);
    }

    /** The volume a number stands for; -1 is the last, and so on backwards. */
    function VolumePath(volume: int): (v: int)
      requires Valid() && volumeCount + 1 + volume >= 0 && volume <= volumeCount
      reads this
      ensures 0 <= v < |volumes|
      ensures volume == -1 ==> v == |volumes| - 1
    {
      if maxsize > 0 then (if volume >= 0 then volume else volumeCount + 1 + volume) else 0
    }

    /** The volumes written to images, in order: each of them once. */
    method BuildIso() returns (images: seq<seq<Package>>)
      requires Valid()
      ensures images == volumes
    {
      if volumeCount == 0 {
        return [volumes[0]];
      }
      images := [];
      for i := 0 to volumeCount + 1
        invariant images == volumes[..i]
      {
        images := images + [volumes[VolumePath(i)]];
      }
    }
  }

  // ----------------------------------------------------------------- what holds

  lemma Ends<T>(s: seq<T>, x: T)
    ensures Front(s + [x]) == s && Last(s + [x]) == x
  {
  }

  lemma StoredInNew(volumes: seq<seq<Package>>, p: Package)
    ensures Front(volumes + [[]]) + [Last(volumes + [[]]) + [p]] == volumes + [[p]]
    ensures volumes + [[]] + [[p]] == volumes + [[], [p]]
  {
    Ends(volumes, []);
    assert [] + [p] == [p];
  }

  lemma {:induction false} OneVolumeWithoutLimit(overhead: nat, packages: seq<Package>)
    ensures IncludeAll(0, overhead, packages) == [packages]
  {
    if packages != [] {
      OneVolumeWithoutLimit(overhead, Front(packages));
      assert packages == Front(packages) + [Last(packages)];
    }
  }

  /** Every package is in exactly one place, in the order of inclusion. */
  lemma {:induction false} OrderIsKept(maxsize: nat, overhead: nat, packages: seq<Package>)
    ensures Flatten(IncludeAll(maxsize, overhead, packages)) == packages
  {
    hide Include, Flatten;
    if packages == [] {
      FlattenOne([]);
    } else {
      OrderIsKept(maxsize, overhead, Front(packages));
      FlattenInclude(IncludeAll(maxsize, overhead, Front(packages)), maxsize, overhead, Last(packages));
      assert packages == Front(packages) + [Last(packages)];
    }
  }

  lemma FlattenInclude(volumes: seq<seq<Package>>, maxsize: nat, overhead: nat, p: Package)
    requires volumes != []
    ensures Flatten(Include(volumes, maxsize, overhead, p)) == Flatten(volumes) + [p]
  {
    hide Load;
    FlattenAppend(volumes, [p]);
    FlattenAppend(Front(volumes), Last(volumes) + [p]);
  }

  lemma FlattenAppend(volumes: seq<seq<Package>>, volume: seq<Package>)
    ensures Flatten(volumes + [volume]) == Flatten(volumes) + volume
  {
    Ends(volumes, volume);
  }

  lemma FlattenOne(volume: seq<Package>)
    ensures Flatten([volume]) == volume
  {
    assert [volume] == [] + [volume];
    Ends([], volume);
  }

  lemma {:induction false} SumIsLoad(volumes: seq<seq<Package>>)
    ensures Sum(volumes) == Load(Flatten(volumes))
  {
    if volumes != [] {
      SumIsLoad(Front(volumes));
      LoadAppend(Flatten(Front(volumes)), Last(volumes));
    }
  }

  lemma {:induction false} LoadAppend(a: seq<Package>, b: seq<Package>)
    ensures Load(a + b) == Load(a) + Load(b)
  {
    if b == [] {
      assert a + b == a;
    } else {
      LoadAppend(a, Front(b));
      assert a + b == a + Front(b) + [Last(b)];
      Ends(a + Front(b), Last(b));
    }
  }

  /** No volume exceeds the limit exactly when every package fits an empty one. */
  lemma {:induction false} LimitIsKept(maxsize: nat, overhead: nat, packages: seq<Package>)
    requires overhead <= maxsize && maxsize > 0
    ensures AllFit(IncludeAll(maxsize, overhead, packages), maxsize, overhead)
            <==> forall p :: p in packages ==> overhead + p.size <= maxsize
  {
    if packages != [] {
      var p := Last(packages);
      var before := IncludeAll(maxsize, overhead, Front(packages));
      LimitIsKept(maxsize, overhead, Front(packages));
      assert packages == Front(packages) + [p];
      IncludeFits(before, maxsize, overhead, p);
    }
  }

  lemma IncludeFits(volumes: seq<seq<Package>>, maxsize: nat, overhead: nat, p: Package)
    requires volumes != [] && maxsize > 0
    ensures AllFit(Include(volumes, maxsize, overhead, p), maxsize, overhead)
            <==> AllFit(volumes, maxsize, overhead) && overhead + p.size <= maxsize
  {
    hide Load;
    var last := Last(volumes);
    LoadAppendOne(last, p);
    LoadAppendOne([], p);
    assert [] + [p] == [p];
    assert Load([]) == 0 by { LoadOfNothing(); }
    FitsAppend(Front(volumes), last, maxsize, overhead);
    FitsAppend(Front(volumes), last + [p], maxsize, overhead);
    FitsAppend(volumes, [p], maxsize, overhead);
    assert volumes == Front(volumes) + [last];
  }

  lemma LoadOfNothing()
    ensures Load([]) == 0
  {
  }

  lemma LoadAppendOne(volume: seq<Package>, p: Package)
    ensures Load(volume + [p]) == Load(volume) + p.size
  {
    Ends(volume, p);
  }

  lemma FitsAppend(volumes: seq<seq<Package>>, volume: seq<Package>, maxsize: nat, overhead: nat)
    ensures AllFit(volumes + [volume], maxsize, overhead)
            <==> AllFit(volumes, maxsize, overhead) && overhead + Load(volume) <= maxsize
  {
    hide Load;
    var all := volumes + [volume];
    assert all[|volumes|] == volume;
    assert forall i :: 0 <= i < |volumes| ==> all[i] == volumes[i];
  }

  /** Each volume was needed. */
  lemma {:induction false} VolumesAreNeeded(maxsize: nat, overhead: nat, packages: seq<Package>)
    requires maxsize > 0
    ensures Needed(IncludeAll(maxsize, overhead, packages), maxsize, overhead)
  {
    hide Include;
    if packages != [] {
      VolumesAreNeeded(maxsize, overhead, Front(packages));
      IncludeIsNeeded(IncludeAll(maxsize, overhead, Front(packages)), maxsize, overhead, Last(packages));
    }
  }

  lemma IncludeIsNeeded(volumes: seq<seq<Package>>, maxsize: nat, overhead: nat, p: Package)
    requires volumes != [] && Needed(volumes, maxsize, overhead)
    ensures Needed(Include(volumes, maxsize, overhead, p), maxsize, overhead)
  {
    hide Load;
    var after: seq<seq<Package>> := Include(volumes, maxsize, overhead, p);
    var n := |volumes|;
    forall i: int | 0 < i < |after|
      ensures after[i] != [] && overhead + Load(after[i - 1]) + after[i][0].size > maxsize
    {
      if i < n {
        assert after[i - 1] == volumes[i - 1] && after[i][0] == volumes[i][0];
      }
    }
  }

  lemma {:induction false} LoadOfFirst(volume: seq<Package>)
    requires volume != []
    ensures Load(volume) >= volume[0].size
  {
    if |volume| > 1 {
      LoadOfFirst(Front(volume));
    }
  }

  /** Two consecutive volumes hold more than fits into one. */
  lemma NeighboursOverflow(volumes: seq<seq<Package>>, maxsize: nat, overhead: nat, i: nat)
    requires Needed(volumes, maxsize, overhead) && overhead <= maxsize && 0 < i < |volumes|
    ensures Load(volumes[i - 1]) + Load(volumes[i]) > maxsize - overhead
  {
    LoadOfFirst(volumes[i]);
  }

  function Pairs(n: nat, capacity: nat): nat {
    if n < 2 then 0 else Pairs(n - 2, capacity) + capacity
  }

  lemma {:induction false} PairsIsProduct(n: nat, capacity: nat)
    ensures Pairs(n, capacity) == n / 2 * capacity
  {
    if n >= 2 {
      PairsIsProduct(n - 2, capacity);
      assert n / 2 == (n - 2) / 2 + 1;
    }
  }

  lemma {:induction false} PairsOverflow(volumes: seq<seq<Package>>, maxsize: nat, overhead: nat)
    requires Needed(volumes, maxsize, overhead) && overhead <= maxsize
    ensures Sum(volumes) >= Pairs(|volumes|, maxsize - overhead)
    ensures |volumes| >= 2 ==> Sum(volumes) > Pairs(|volumes|, maxsize - overhead)
  {
    hide Load;
    var n := |volumes|;
    if n >= 2 {
      var rest := volumes[..n - 2];
      assert Front(Front(volumes)) == rest;
      assert Sum(volumes) == Sum(Front(volumes)) + Load(volumes[n - 1]);
      assert Sum(Front(volumes)) == Sum(rest) + Load(volumes[n - 2]);
      NeighboursOverflow(volumes, maxsize, overhead, n - 1);
      PairsOverflow(rest, maxsize, overhead);
    }
  }

  /** The whole: how many volumes a list of packages takes. */
  lemma VolumeCountIsBounded(maxsize: nat, overhead: nat, packages: seq<Package>)
    requires 0 < maxsize && overhead <= maxsize
    ensures var v := IncludeAll(maxsize, overhead, packages);
            |v| >= 2 ==> |v| / 2 * (maxsize - overhead) < Load(packages)
  {
    hide IncludeAll, Load, Sum, Flatten, Needed;
    var v := IncludeAll(maxsize, overhead, packages);
    VolumesAreNeeded(maxsize, overhead, packages);
    PairsOverflow(v, maxsize, overhead);
    PairsIsProduct(|v|, maxsize - overhead);
    SumIsLoad(v);
    OrderIsKept(maxsize, overhead, packages);
  }
}
