/** The transitive dependencies of a package. */
module Deps {
  import opened Lists

  /** The alternatives of every dependency of a version. */
  type Dependencies = seq<seq<string>>

  datatype Candidate = NoCandidate | Candidate(dependencies: Dependencies)

  type Cache = map<string, Candidate>

  datatype Closure = Ok(packages: seq<string>) | KeyError | AttributeError

  /** All names a version depends on, alternatives included. */
  function GetDeps(dependencies: Dependencies): seq<string> {
    if dependencies == [] then [] else dependencies[0] + GetDeps(dependencies[1..])
  }

  /** `q` is a cached package that the candidate of `p` depends on. */
  predicate Edge(c: Cache, p: string, q: string) {
    p in c && c[p].Candidate? && (exists alternatives :: alternatives in c[p].dependencies && q in alternatives)
    && q in c
  }

  lemma {:induction false} GetDepsElements(dependencies: Dependencies, q: string)
    ensures q in GetDeps(dependencies) <==> exists alternatives :: alternatives in dependencies && q in alternatives
  {
    if dependencies != [] {
      GetDepsElements(dependencies[1..], q);
      assert dependencies == [dependencies[0]] + dependencies[1..];
      if q in dependencies[0] {
        assert dependencies[0] in dependencies;
      }
    }
  }

  lemma EdgeIsDep(c: Cache, p: string, q: string)
    ensures Edge(c, p, q) <==> p in c && c[p].Candidate? && q in GetDeps(c[p].dependencies) && q in c
  {
    if p in c && c[p].Candidate? {
      GetDepsElements(c[p].dependencies, q);
    }
  }

  predicate IsPath(c: Cache, path: seq<string>) {
    forall i :: 0 <= i < |path| - 1 ==> Edge(c, path[i], path[i + 1])
  }

  predicate Links(c: Cache, path: seq<string>, p: string, q: string) {
    |path| >= 2 && path[0] == p && path[|path| - 1] == q && IsPath(c, path)
  }

  /** `q` is reached from `p` by one or more dependencies. */
  ghost predicate Reaches(c: Cache, p: string, q: string) {
    exists path :: Links(c, path, p, q)
  }

  lemma ReachesOne(c: Cache, p: string, q: string)
    requires Edge(c, p, q)
    ensures Reaches(c, p, q)
  {
    assert Links(c, [p, q], p, q);
  }

  lemma ReachesMore(c: Cache, start: string, p: string, q: string)
    requires p == start || Reaches(c, start, p)
    requires Edge(c, p, q)
    ensures Reaches(c, start, q)
  {
    if Reaches(c, start, p) {
      var path :| Links(c, path, start, p);
      assert Links(c, path + [q], start, q);
    } else {
      ReachesOne(c, p, q);
    }
  }

  lemma {:induction false} DistinctFits(s: seq<string>, keys: set<string>)
    requires Distinct(s) && forall p :: p in s ==> p in keys
    ensures |s| <= |keys|
  {
    if s != [] {
      var last := s[|s| - 1];
      forall p | p in s[..|s| - 1] ensures p in keys - {last} {
        assert p != last;
      }
      DistinctFits(s[..|s| - 1], keys - {last});
    }
  }

  /** What is collected so far comes from `start`. */
  ghost predicate Sound(c: Cache, start: string, found: seq<string>) {
    Distinct(found) && forall p :: p in found ==> p in c && Reaches(c, start, p)
  }

  /** All cached dependencies of `p` are collected. */
  ghost predicate Expanded(c: Cache, p: string, found: seq<string>) {
    p in c && c[p].Candidate? && forall q :: Edge(c, p, q) ==> q in found
  }

  /** Everything collected is either expanded or still to do. */
  ghost predicate Covered(c: Cache, start: string, found: seq<string>, togo: seq<string>) {
    && (Expanded(c, start, found) || start in togo)
    && (forall p :: p in found ==> Expanded(c, p, found) || p in togo)
    && (forall p :: p in togo ==> p == start || p in found)
  }

  ghost predicate Broken(c: Cache, p: string) {
    p in c && c[p].NoCandidate?
  }

  /** Each package is listed once, and exactly those reached through cached
      packages are. A package without a candidate on the way is an error. */
  method GetAllDeps(c: Cache, pkgname: string) returns (r: Closure)
    ensures r.KeyError? <==> pkgname !in c
    ensures r.AttributeError? <==>
            Broken(c, pkgname) || exists p :: Broken(c, p) && Reaches(c, pkgname, p)
    ensures r.Ok? ==> Distinct(r.packages) && forall p :: p in r.packages <==> Reaches(c, pkgname, p)
  {
    hide Reaches, Edge;
    var retval: seq<string> := [];
    var togo := [pkgname];
    while togo != []
      invariant Sound(c, pkgname, retval) && Covered(c, pkgname, retval, togo)
      invariant pkgname !in c ==> togo == [pkgname]
      decreases |c.Keys| - |retval|, |togo|
    {
      var pp := togo[|togo| - 1];
      togo := togo[..|togo| - 1];
      if pp !in c {
        NowhereFromMissing(c, pkgname);
        return KeyError;
      }
      if c[pp].NoCandidate? {
        assert Broken(c, pp);
        return AttributeError;
      }
      var found, more := Expand(c, pkgname, pp, retval, togo);
      DistinctFits(found, c.Keys);
      retval, togo := found, more;
    }
    ClosedIsComplete(c, pkgname, retval);
    r := Ok(retval);
  }

  /** One round of the loop: the new dependencies of `pp`. */
  method Expand(c: Cache, start: string, pp: string, retval: seq<string>, togo: seq<string>)
    returns (found: seq<string>, more: seq<string>)
    requires pp in c && c[pp].Candidate?
    requires Sound(c, start, retval) && Covered(c, start, retval, togo + [pp])
    ensures Sound(c, start, found) && Covered(c, start, found, more)
    ensures |found| > |retval| || (found == retval && more == togo)
  {
    hide Reaches, Edge, GetDeps;
    forall q ensures Edge(c, pp, q) <==> q in GetDeps(c[pp].dependencies) && q in c {
      EdgeIsDep(c, pp, q);
    }
    found, more := retval, togo;
    var deps := GetDeps(c[pp].dependencies);
    for i := 0 to |deps|
      invariant |found| >= |retval| && found[..|retval|] == retval
      invariant |more| == |togo| + |found| - |retval| && more[..|togo|] == togo
      invariant found == retval ==> more == togo
      invariant more == togo + found[|retval|..]
      invariant Sound(c, start, found)
      invariant forall q :: q in deps[..i] && q in c ==> q in found
    {
      var p := deps[i];
      if p !in found && p in c {
        assert Edge(c, pp, p);
        ReachesMore(c, start, pp, p);
        found := found + [p];
        more := more + [p];
      }
    }
    assert deps[..|deps|] == deps;
    Advance(c, start, pp, retval, togo, found, more);
  }

  lemma Advance(c: Cache, start: string, pp: string, retval: seq<string>, togo: seq<string>,
                found: seq<string>, more: seq<string>)
    requires Covered(c, start, retval, togo + [pp])
    requires |found| >= |retval| && found[..|retval|] == retval && more == togo + found[|retval|..]
    requires Expanded(c, pp, found)
    ensures Covered(c, start, found, more)
  {
    hide Edge;
    assert found == retval + found[|retval|..];
    forall p | p == start || p in retval ensures Expanded(c, p, found) || p in more {
      if Expanded(c, p, retval) {
        assert Expanded(c, p, found);
      }
    }
  }

  /** A package that is not cached, or has no candidate, leads nowhere. */
  lemma NowhereFromMissing(c: Cache, start: string)
    requires start !in c
    ensures forall q :: !Reaches(c, start, q)
  {
    forall q, path ensures !Links(c, path, start, q) {
      if |path| >= 2 && path[0] == start {
        assert !Edge(c, path[0], path[0 + 1]);
      }
    }
  }

  lemma ClosedIsComplete(c: Cache, start: string, found: seq<string>)
    requires Expanded(c, start, found) && forall p :: p in found ==> Expanded(c, p, found)
    ensures forall q :: Reaches(c, start, q) ==> q in found
  {
    forall q | Reaches(c, start, q) ensures q in found {
      var path :| Links(c, path, start, q);
      PathStays(c, path, found);
    }
  }

  lemma {:induction false} PathStays(c: Cache, path: seq<string>, found: seq<string>)
    requires |path| >= 2 && IsPath(c, path)
    requires Expanded(c, path[0], found) && forall p :: p in found ==> Expanded(c, p, found)
    ensures path[|path| - 1] in found
  {
    assert Edge(c, path[0], path[1]);
    if |path| > 2 {
      forall i | 0 <= i < |path| - 2 ensures Edge(c, path[1..][i], path[1..][i + 1]) {
        assert Edge(c, path[i + 1], path[i + 2]);
      }
      PathStays(c, path[1..], found);
    }
  }
}
