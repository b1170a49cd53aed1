/** Merging the sections of one kind into the first of them. */
module Sections {
  import opened Lists
  import opened Variants

  /** No section is the root or a child of another one. */
  ghost predicate Apart(d: Doc, sections: seq<Id>) {
    && Distinct(sections)
    && forall s :: s in sections ==> s in d.parent && d.parent[s] !in sections
  }

  function ChildrenOf(d: Doc, sections: seq<Id>): seq<Id>
    requires forall s :: s in sections ==> s in d.children
  {
    if sections == [] then []
    else ChildrenOf(d, sections[..|sections| - 1]) + d.children[sections[|sections| - 1]]
  }

  function Others(sections: seq<Id>): set<Id> {
    if sections == [] then {} else Elements(sections[1..])
  }

  /** The children of all sections in a row below the first, the others gone. */
  function Merged(d: Doc, sections: seq<Id>): Doc
    requires sections != [] && forall s :: s in sections ==> s in d.children
  {
    var first, others := sections[0], Others(sections);
    d.(parent := map x | x in d.parent && x !in others ::
                   if d.parent[x] in others then first else d.parent[x],
       children := map p | p in d.children ::
                     if p == first then ChildrenOf(d, sections)
                     else if p in others then []
                     else FilterOut(d.children[p], others))
  }

  /** `d` after the first `j` children of `s` were moved to `first`. */
  function Moved(d: Doc, first: Id, s: Id, j: nat): Doc
    requires first in d.children && s in d.children && j <= |d.children[s]|
  {
    var moved := d.children[s][..j];
    d.(parent := map x | x in d.parent :: if x in moved then first else d.parent[x],
       children := d.children[s := d.children[s][j..]][first := d.children[first] + moved])
  }

  /** `a.append(c)`: an element that has a parent is taken from there. */
  method Append(document: Document, a: Id, c: Id)
    requires a in document.doc.children
    requires c in document.doc.parent ==> document.doc.parent[c] in document.doc.children
    modifies document
    ensures document.doc == Appended(old(document.doc), a, c)
  {
    var doc := document.doc;
    if c in doc.parent {
      var p := doc.parent[c];
      doc := doc.(children := doc.children[p := FilterOut(doc.children[p], {c})]);
    }
    doc := doc.(children := doc.children[a := doc.children[a] + [c]], parent := doc.parent[c := a]);
    document.doc := doc;
  }

  function Appended(d: Doc, a: Id, c: Id): Doc
    requires a in d.children
    requires c in d.parent ==> d.parent[c] in d.children
  {
    var e := if c in d.parent then
               d.(children := d.children[d.parent[c] := FilterOut(d.children[d.parent[c]], {c})])
             else d;
    e.(children := e.children[a := e.children[a] + [c]], parent := e.parent[c := a])
  }

  lemma MoveOne(d: Doc, first: Id, s: Id, j: nat)
    requires WellFormed(d) && first in d.children && s in d.children && first != s
    requires j < |d.children[s]|
    ensures var c := d.children[s][j];
            var e := Moved(d, first, s, j);
            && c in e.parent && e.parent[c] == s
            && Appended(e, first, c) == Moved(d, first, s, j + 1)
  {
    hide FilterOut, HasIds, LinksDown;
    var list := d.children[s];
    var c := list[j];
    assert c in list && c !in list[..j];
    assert list[..j + 1] == list[..j] + [c];
    MoveOneParent(d, first, s, j);
    MoveOneChildren(d, first, s, list, j);
  }

  lemma MoveOneParent(d: Doc, first: Id, s: Id, j: nat)
    requires first in d.children && s in d.children && j < |d.children[s]|
    requires d.children[s][j] in d.parent
    ensures Moved(d, first, s, j).parent[d.children[s][j] := first] == Moved(d, first, s, j + 1).parent
  {
    var list := d.children[s];
    assert list[..j + 1] == list[..j] + [list[j]];
  }

  lemma MoveOneChildren(d: Doc, first: Id, s: Id, list: seq<Id>, j: nat)
    requires first in d.children && s in d.children && list == d.children[s] && first != s
    requires j < |list| && Distinct(list)
    ensures var e := Moved(d, first, s, j).children;
            e[s := FilterOut(e[s], {list[j]})][first := e[first] + [list[j]]] == Moved(d, first, s, j + 1).children
  {
    hide FilterOut;
    assert list[j..] == [list[j]] + list[j + 1..];
    DropFirst(list[j..]);
    assert list[..j + 1] == list[..j] + [list[j]];
    assert d.children[first] + list[..j] + [list[j]] == d.children[first] + list[..j + 1];
  }

  lemma DropFirst(s: seq<Id>)
    requires s != [] && Distinct(s)
    ensures FilterOut(s, {s[0]}) == s[1..]
  {
    FilterOutNone(s[1..], {s[0]});
  }

  function MovedAll(d: Doc, first: Id, s: Id): Doc
    requires first in d.children && s in d.children
  {
    var list := d.children[s];
    d.(parent := map x | x in d.parent :: if x in list then first else d.parent[x],
       children := d.children[s := []][first := d.children[first] + list])
  }

  lemma MovedIsAll(d: Doc, first: Id, s: Id)
    requires first in d.children && s in d.children && first != s
    ensures Moved(d, first, s, |d.children[s]|) == MovedAll(d, first, s)
  {
    var list := d.children[s];
    assert list[..|list|] == list && list[|list|..] == [];
  }

  lemma MovedLinksDown(d: Doc, first: Id, s: Id)
    requires HasIds(d) && LinksDown(d) && first in d.children && s in d.children && first != s
    ensures HasIds(MovedAll(d, first, s)) && LinksDown(MovedAll(d, first, s))
  {
  }

  lemma MovedLinksUp(d: Doc, first: Id, s: Id)
    requires LinksUp(d) && first in d.children && s in d.children && first != s
    ensures LinksUp(MovedAll(d, first, s))
  {
  }

  lemma MovedNoRepeats(d: Doc, first: Id, s: Id)
    requires LinksUp(d) && NoRepeats(d) && first in d.children && s in d.children && first != s
    ensures NoRepeats(MovedAll(d, first, s))
  {
    hide Distinct;
    NothingRepeats();
    forall x | x in d.children[first] ensures x !in d.children[s] {
      assert d.parent[x] == first;
    }
    DistinctAppend(d.children[first], d.children[s]);
  }

  lemma MovedIsWellFormed(d: Doc, first: Id, s: Id)
    requires WellFormed(d) && first in d.children && s in d.children && first != s
    ensures WellFormed(Moved(d, first, s, |d.children[s]|))
  {
    hide MovedAll, LinksUp, NoRepeats;
    MovedIsAll(d, first, s);
    MovedLinksDown(d, first, s);
    MovedLinksUp(d, first, s);
    MovedNoRepeats(d, first, s);
  }

  lemma NothingRepeats()
    ensures Distinct<Id>([])
  {
  }

  lemma DistinctAppend(a: seq<Id>, b: seq<Id>)
    requires Distinct(a) && Distinct(b) && forall x :: x in a ==> x !in b
    ensures Distinct(a + b)
  {
    forall i, j | 0 <= i < j < |a + b| ensures (a + b)[i] != (a + b)[j] {
      assert i < |a| ==> (a + b)[i] in a;
      assert j >= |a| ==> (a + b)[j] in b;
    }
  }

  /** One more section: its children are appended in order, then it is removed. */
  method MergeSection(document: Document, first: Id, s: Id)
    requires WellFormed(document.doc) && first in document.doc.children && first != s
    requires s in document.doc.parent && s in document.doc.children
    modifies document
    ensures document.doc
            == Without(Moved(old(document.doc), first, s, |old(document.doc).children[s]|), {s})
  {
    hide FilterOut, WellFormed, Without;
    ghost var d := document.doc;
    var children := document.doc.children[s];
    ParentsExist(d);
    MovedNone(d, first, s);
    for j := 0 to |children|
      invariant document.doc == Moved(d, first, s, j)
    {
      MoveOne(d, first, s, j);
      Append(document, first, children[j]);
    }
    MovedIsWellFormed(d, first, s);
    StaysLinked(d, first, s);
    var removed := document.RemoveFromParent(s);
  }

  lemma ParentsExist(d: Doc)
    requires WellFormed(d)
    ensures forall x :: x in d.parent ==> d.parent[x] in d.children
  {
  }

  lemma MovedNone(d: Doc, first: Id, s: Id)
    requires first in d.children && s in d.children && first != s
    ensures Moved(d, first, s, 0) == d
  {
    assert d.children[s][..0] == [] && d.children[s][0..] == d.children[s];
    assert d.children[first] + [] == d.children[first];
    assert Moved(d, first, s, 0).parent == d.parent;
  }

  lemma StaysLinked(d: Doc, first: Id, s: Id)
    requires first in d.children && s in d.children && s in d.parent
    ensures s in Moved(d, first, s, |d.children[s]|).parent
  {
  }

  lemma MergedOne(d: Doc, first: Id)
    requires first in d.children
    ensures Merged(d, [first]) == d
  {
    hide FilterOut;
    assert Others([first]) == {};
    ChildrenOfOne(d, first);
    forall p | p in d.children ensures FilterOut(d.children[p], {}) == d.children[p] {
      FilterOutNone(d.children[p], {});
    }
    assert Merged(d, [first]).children == d.children;
    assert Merged(d, [first]).parent == d.parent;
  }

  lemma ChildrenOfOne(d: Doc, s: Id)
    requires s in d.children
    ensures ChildrenOf(d, [s]) == d.children[s]
  {
    assert ChildrenOf(d, [][..0]) == [];
    assert [s][..0] == [];
  }

  predicate Known(d: Doc, sections: seq<Id>) {
    sections != [] && forall x :: x in sections ==> x in d.children
  }

  /** The next section. */
  lemma MergedNext(d: Doc, sections: seq<Id>, s: Id)
    requires WellFormed(d) && sections != [] && Apart(d, sections + [s]) && Known(d, sections + [s])
    ensures Known(d, sections) && s in d.children
    ensures var e := Merged(d, sections);
            && e.children[s] == d.children[s]
            && Without(Moved(e, sections[0], s, |e.children[s]|), {s}) == Merged(d, sections + [s])
  {
    hide FilterOut, ChildrenOf, HasIds, LinksDown, LinksUp, Apart, NoRepeats, MovedAll;
    assert s in sections + [s] && s !in sections by { NotAgain(d, sections, s); }
    forall x | x in sections ensures x in d.children {
      assert x in sections + [s];
    }
    var e := Merged(d, sections);
    var r := Without(MovedAll(e, sections[0], s), {s});
    UntouchedChildren(d, sections, s);
    MovedIsAll(e, sections[0], s);
    NextParent(d, sections, s);
    forall p | p in d.children ensures p in r.children && r.children[p] == Merged(d, sections + [s]).children[p] {
      NextChildren(d, sections, s, p);
    }
    assert r.children == Merged(d, sections + [s]).children by { SameIds(e, sections[0], s); }
    assert r == Merged(d, sections + [s]) by { SameRest(e, sections[0], s); }
  }

  lemma SameIds(e: Doc, first: Id, s: Id)
    requires first in e.children && s in e.children
    ensures Without(MovedAll(e, first, s), {s}).children.Keys == e.children.Keys
  {
  }

  lemma SameRest(e: Doc, first: Id, s: Id)
    requires first in e.children && s in e.children
    ensures var r := Without(MovedAll(e, first, s), {s});
            r.root == e.root && r.tag == e.tag && r.variant == e.variant
  {
  }

  lemma NotAgain(d: Doc, sections: seq<Id>, s: Id)
    requires Apart(d, sections + [s])
    ensures s !in sections && Apart(d, sections)
  {
    assert forall i :: 0 <= i < |sections| ==> (sections + [s])[i] == sections[i];
    assert (sections + [s])[|sections|] == s;
    assert forall x :: x in sections ==> x in sections + [s];
  }

  lemma OthersNext(sections: seq<Id>, s: Id)
    requires sections != []
    ensures Others(sections + [s]) == Others(sections) + {s}
    ensures forall x :: x in Others(sections) ==> x in sections
  {
    assert (sections + [s])[1..] == sections[1..] + [s];
  }

  lemma OthersDoNotHoldFirst(sections: seq<Id>)
    requires sections != [] && Distinct(sections)
    ensures forall x :: x in sections <==> x == sections[0] || x in Others(sections)
    ensures sections[0] !in Others(sections)
  {
    assert sections == [sections[0]] + sections[1..];
  }

  /** No section lies directly below an element that is one. */
  lemma NoSectionBelow(d: Doc, sections: seq<Id>, p: Id, x: Id)
    requires WellFormed(d) && Apart(d, sections) && p in sections && p in d.children
    requires x in d.children[p]
    ensures x !in sections
  {
  }

  lemma UntouchedChildren(d: Doc, sections: seq<Id>, s: Id)
    requires WellFormed(d) && Apart(d, sections + [s]) && Known(d, sections) && s in d.children
    ensures Merged(d, sections).children[s] == d.children[s]
  {
    hide FilterOut, ChildrenOf, Apart, WellFormed;
    NotAgain(d, sections, s);
    OthersNext(sections, s);
    forall x | x in d.children[s] ensures x !in Others(sections) {
      NoSectionBelow(d, sections + [s], s, x);
    }
    FilterOutNone(d.children[s], Others(sections));
  }

  lemma NextParent(d: Doc, sections: seq<Id>, s: Id)
    requires WellFormed(d) && Apart(d, sections + [s]) && Known(d, sections) && Known(d, sections + [s])
    requires s in d.children
    ensures Without(MovedAll(Merged(d, sections), sections[0], s), {s}).parent
            == Merged(d, sections + [s]).parent
  {
    hide FilterOut, ChildrenOf, Apart, WellFormed;
    OthersNext(sections, s);
    UntouchedChildren(d, sections, s);
    ChildHasParent(d, s);
  }

  lemma ChildHasParent(d: Doc, s: Id)
    requires WellFormed(d) && s in d.children
    ensures forall x :: x in d.children[s] <==> x in d.parent && d.parent[x] == s
  {
  }

  lemma {:induction false} ChildrenOfElements(d: Doc, sections: seq<Id>)
    requires forall s :: s in sections ==> s in d.children
    ensures forall x :: x in ChildrenOf(d, sections) ==> exists s :: s in sections && x in d.children[s]
    ensures forall s, x :: s in sections && x in d.children[s] ==> x in ChildrenOf(d, sections)
  {
    if sections != [] {
      var init := sections[..|sections| - 1];
      assert sections == init + [sections[|sections| - 1]];
      ChildrenOfElements(d, init);
    }
  }

  lemma ChildrenOfNext(d: Doc, sections: seq<Id>, s: Id)
    requires forall x :: x in sections + [s] ==> x in d.children
    requires forall x :: x in sections ==> x in d.children
    requires s in d.children
    ensures ChildrenOf(d, sections + [s]) == ChildrenOf(d, sections) + d.children[s]
  {
    assert (sections + [s])[..|sections|] == sections;
  }

  lemma NextChildren(d: Doc, sections: seq<Id>, s: Id, p: Id)
    requires WellFormed(d) && Apart(d, sections + [s]) && Known(d, sections) && Known(d, sections + [s])
    requires s in d.children && p in d.children
    ensures Without(MovedAll(Merged(d, sections), sections[0], s), {s}).children[p]
            == Merged(d, sections + [s]).children[p]
  {
    hide FilterOut, ChildrenOf, WellFormed, Apart, Distinct;
    var first, others := sections[0], Others(sections);
    NotAgain(d, sections, s);
    OthersNext(sections, s);
    UntouchedChildren(d, sections, s);
    ChildrenOfNext(d, sections, s);
    if p == first {
      NotInChildrenOf(d, sections + [s], s);
      FilterOutNone(ChildrenOf(d, sections + [s]), {s});
    } else if p == s || p in others {
      FilterOutNone([], {s});
    } else {
      FilterOutTwice(d.children[p], others, {s});
    }
  }

  lemma NotInChildrenOf(d: Doc, sections: seq<Id>, s: Id)
    requires WellFormed(d) && Apart(d, sections) && Known(d, sections) && s in sections
    ensures s !in ChildrenOf(d, sections)
  {
    hide WellFormed, Apart;
    ChildrenOfElements(d, sections);
    if s in ChildrenOf(d, sections) {
      var t :| t in sections && s in d.children[t];
      NoSectionBelow(d, sections, t, s);
    }
  }

  /** All sections after the first are merged into it. */
  method MergeSections(document: Document, sections: seq<Id>)
    requires WellFormed(document.doc) && Apart(document.doc, sections)
    modifies document
    ensures WellFormed(document.doc)
    ensures sections == [] ==> document.doc == old(document.doc)
    ensures sections != [] ==> Known(old(document.doc), sections)
    ensures sections != [] ==> document.doc == Merged(old(document.doc), sections)
  {
    hide Merged, Moved, Without, WellFormed, Apart;
    ghost var d := document.doc;
    SectionsAreKnown(d, sections);
    if |sections| == 0 {
      return;
    }
    MergedOne(d, sections[0]);
    assert sections[..1] == [sections[0]];
    for k := 1 to |sections|
      invariant document.doc == Merged(d, sections[..k]) && WellFormed(document.doc)
    {
      var s := sections[k];
      assert sections[..k + 1] == sections[..k] + [s];
      PrefixIsApart(d, sections, k + 1);
      MergedNext(d, sections[..k], s);
      SectionStays(d, sections[..k], s);
      MergedIds(d, sections[..k]);
      MergedIsWellFormed(d, sections[..k + 1]);
      MergeSection(document, sections[0], s);
    }
    assert sections[..|sections|] == sections;
  }

  lemma SectionsAreKnown(d: Doc, sections: seq<Id>)
    requires WellFormed(d) && Apart(d, sections)
    ensures forall s :: s in sections ==> s in d.children
  {
  }

  lemma PrefixIsApart(d: Doc, sections: seq<Id>, k: nat)
    requires Apart(d, sections) && k <= |sections|
    ensures Apart(d, sections[..k])
  {
  }

  lemma SectionStays(d: Doc, sections: seq<Id>, s: Id)
    requires sections != [] && Apart(d, sections + [s]) && Known(d, sections)
    ensures s != sections[0] && s in Merged(d, sections).parent
  {
    hide FilterOut, ChildrenOf;
    NotAgain(d, sections, s);
    OthersNext(sections, s);
    assert s in sections + [s];
  }

  lemma {:induction false} MergedIsWellFormed(d: Doc, sections: seq<Id>)
    requires WellFormed(d) && Apart(d, sections) && Known(d, sections)
    ensures WellFormed(Merged(d, sections))
  {
    hide Merged, Moved, Without, WellFormed, Apart;
    if |sections| == 1 {
      MergedOne(d, sections[0]);
      assert sections == [sections[0]];
    } else {
      var init, s := sections[..|sections| - 1], sections[|sections| - 1];
      assert sections == init + [s];
      PrefixIsApart(d, sections, |init|);
      MergedNext(d, init, s);
      MergedIsWellFormed(d, init);
      SectionStays(d, init, s);
      MergedIds(d, init);
      MovedIsWellFormed(Merged(d, init), init[0], s);
      WithoutIsWellFormed(Moved(Merged(d, init), init[0], s, |Merged(d, init).children[s]|), {s});
    }
  }

  lemma MergedIds(d: Doc, sections: seq<Id>)
    requires Known(d, sections)
    ensures Merged(d, sections).children.Keys == d.children.Keys
  {
  }

  // ------------------------------------------------------- which elements match

  /** The tags of the element and at most `n - 1` elements above it, downwards. */
  function TagsUp(d: Doc, x: Id, n: nat): seq<string>
    decreases n
  {
    if n == 0 || x !in d.tag then []
    else if x !in d.parent then [d.tag[x]]
    else TagsUp(d, d.parent[x], n - 1) + [d.tag[x]]
  }

  /** The element is found by `//a/b/..` with the tags `path`. */
  predicate Matches(d: Doc, path: seq<string>, x: Id) {
    TagsUp(d, x, |path|) == path
  }

  /** `sections` are the elements of the document that match, none of them above
      the first. */
  ghost predicate Found(d: Doc, path: seq<string>, sections: seq<Id>) {
    && Distinct(sections)
    && (forall x :: x in sections <==> Attached(d, x) && Matches(d, path, x))
    && (sections != [] ==> exists chain :: LeadsTo(d, chain, sections[0])
                                           && forall s :: s in sections[1..] ==> s !in chain)
  }

  predicate IsPath(path: seq<string>) {
    |path| >= 2 && path[|path| - 1] != path[|path| - 2]
  }

  lemma MatchUnfolds(d: Doc, path: seq<string>, x: Id)
    requires WellFormed(d) && |path| >= 2 && Matches(d, path, x)
    ensures x in d.parent && d.tag[x] == path[|path| - 1]
    ensures Matches(d, path[..|path| - 1], d.parent[x])
    ensures d.tag[d.parent[x]] == path[|path| - 2]
  {
    var n := |path|;
    assert x in d.parent;
    var up := TagsUp(d, d.parent[x], n - 1);
    assert up + [d.tag[x]] == path;
    assert up == path[..n - 1];
  }

  lemma FoundAreApart(d: Doc, path: seq<string>, sections: seq<Id>)
    requires WellFormed(d) && IsPath(path) && Found(d, path, sections)
    ensures Apart(d, sections)
  {
    hide Matches, Attached, WellFormed;
    forall s | s in sections ensures s in d.parent && d.parent[s] !in sections {
      MatchUnfolds(d, path, s);
      if d.parent[s] in sections {
        MatchUnfolds(d, path, d.parent[s]);
      }
    }
  }

  lemma TagsUpStep(d: Doc, x: Id, n: nat)
    requires n > 0
    ensures x !in d.tag ==> TagsUp(d, x, n) == []
    ensures x in d.tag && x !in d.parent ==> TagsUp(d, x, n) == [d.tag[x]]
    ensures x in d.tag && x in d.parent ==> TagsUp(d, x, n) == TagsUp(d, d.parent[x], n - 1) + [d.tag[x]]
    ensures TagsUp(d, x, 0) == []
  {
  }

  lemma {:induction false} TagsUpSuffix(d: Doc, x: Id, k: nat, n: nat)
    requires n <= k && |TagsUp(d, x, k)| == k
    ensures TagsUp(d, x, n) == TagsUp(d, x, k)[k - n..]
    decreases n
  {
    hide TagsUp;
    if n == 0 {
      TagsUpStep(d, x, 1);
    } else {
      TagsUpStep(d, x, k);
      TagsUpStep(d, x, n);
      if x in d.parent {
        var up := TagsUp(d, d.parent[x], k - 1);
        TagsUpSuffix(d, d.parent[x], k - 1, n - 1);
        SliceSnoc(up, d.tag[x], k - n);
      }
    }
  }

  lemma SliceSnoc(s: seq<string>, t: string, i: nat)
    requires i <= |s|
    ensures (s + [t])[i..] == s[i..] + [t]
  {
  }

  ghost predicate AllMatch(d: Doc, path: seq<string>, sections: seq<Id>) {
    forall s :: s in sections ==> Matches(d, path, s)
  }

  lemma {:induction false} MergedTagsUp(d: Doc, path: seq<string>, sections: seq<Id>, x: Id, n: nat)
    requires WellFormed(d) && Apart(d, sections) && Known(d, sections) && AllMatch(d, path, sections)
    requires x !in Others(sections) && n <= |path|
    ensures TagsUp(Merged(d, sections), x, n) == TagsUp(d, x, n)
    decreases n
  {
    hide FilterOut, ChildrenOf, Apart, LinksDown, LinksUp, NoRepeats, Merged;
    assert Distinct(sections) by { ApartIsDistinct(d, sections); }
    OthersDoNotHoldFirst(sections);
    MergedParent(d, sections, x);
    if n > 0 && x in d.parent && x in d.tag {
      var p := d.parent[x];
      if p in Others(sections) {
        MergedTagsUp(d, path, sections, sections[0], n - 1);
        TagsUpSuffix(d, sections[0], |path|, n - 1);
        TagsUpSuffix(d, p, |path|, n - 1);
      } else {
        MergedTagsUp(d, path, sections, p, n - 1);
      }
    }
  }

  lemma ApartIsDistinct(d: Doc, sections: seq<Id>)
    requires Apart(d, sections)
    ensures Distinct(sections)
  {
  }

  lemma MergedMatches(d: Doc, path: seq<string>, sections: seq<Id>, x: Id)
    requires WellFormed(d) && Apart(d, sections) && Known(d, sections) && AllMatch(d, path, sections)
    requires |path| >= 2
    ensures Matches(Merged(d, sections), path, x) <==> Matches(d, path, x) && x !in Others(sections)
  {
    hide WellFormed, Apart;
    if x in Others(sections) {
      assert x !in Merged(d, sections).parent;
    } else {
      MergedTagsUp(d, path, sections, x, |path|);
    }
  }

  lemma MergedParent(d: Doc, sections: seq<Id>, x: Id)
    requires Known(d, sections)
    ensures var e := Merged(d, sections);
            && e.root == d.root && e.tag == d.tag
            && (x in e.parent <==> x in d.parent && x !in Others(sections))
            && (x in e.parent ==>
                e.parent[x] == if d.parent[x] in Others(sections) then sections[0] else d.parent[x])
  {
  }

  lemma {:induction false} StillThere(d: Doc, sections: seq<Id>, chain: seq<Id>, x: Id)
    requires Known(d, sections)
    requires forall s :: s in sections ==> Attached(d, s)
    requires LeadsTo(Merged(d, sections), chain, x)
    ensures Attached(d, x)
    decreases |chain|
  {
    hide Merged, Attached;
    MergedParent(d, sections, x);
    if |chain| == 1 {
      RootIsAttached(d);
    } else {
      StillThere(d, sections, chain[..|chain| - 1], chain[|chain| - 2]);
      SectionsOfOthers(sections);
      AttachedChild(d, x);
    }
  }

  lemma SectionsOfOthers(sections: seq<Id>)
    ensures forall x :: x in Others(sections) ==> x in sections
  {
  }

  lemma {:induction false} NotLost(d: Doc, sections: seq<Id>, chain: seq<Id>, x: Id)
    requires Known(d, sections) && Attached(Merged(d, sections), sections[0])
    requires LeadsTo(d, chain, x) && x !in Others(sections)
    ensures Attached(Merged(d, sections), x)
    decreases |chain|
  {
    hide Merged, Attached, Others;
    var e := Merged(d, sections);
    MergedParent(d, sections, x);
    if |chain| == 1 {
      RootIsAttached(e);
    } else {
      if d.parent[x] !in Others(sections) {
        NotLost(d, sections, chain[..|chain| - 1], d.parent[x]);
      }
      AttachedChild(e, x);
    }
  }

  lemma FirstStays(d: Doc, path: seq<string>, sections: seq<Id>)
    requires Found(d, path, sections) && Known(d, sections)
    ensures Attached(Merged(d, sections), sections[0])
  {
    hide Merged, Matches, Attached;
    var e := Merged(d, sections);
    var chain :| LeadsTo(d, chain, sections[0]) && forall s :: s in sections[1..] ==> s !in chain;
    forall i | 0 < i < |chain| ensures chain[i] in e.parent && e.parent[chain[i]] == chain[i - 1] {
      MergedParent(d, sections, chain[i]);
      assert chain[i] in chain && chain[i - 1] in chain;
    }
    MergedParent(d, sections, sections[0]);
    assert LeadsTo(e, chain, sections[0]);
    assert Attached(e, sections[0]) by { AttachedBy(e, chain, sections[0]); }
  }

  lemma AttachedBy(d: Doc, chain: seq<Id>, x: Id)
    requires LeadsTo(d, chain, x)
    ensures Attached(d, x)
  {
  }

  /** Merging takes nothing out of the document but the sections after the first. */
  lemma NothingIsLost(d: Doc, path: seq<string>, sections: seq<Id>, x: Id)
    requires WellFormed(d) && IsPath(path) && Found(d, path, sections) && sections != []
    ensures Apart(d, sections) && Known(d, sections)
    ensures Attached(Merged(d, sections), x) <==> Attached(d, x) && x !in Others(sections)
  {
    hide Merged, Matches, WellFormed, Apart, IsChain;
    FoundAreApart(d, path, sections);
    SectionsAreKnown(d, sections);
    var e := Merged(d, sections);
    if Attached(e, x) {
      var chain :| LeadsTo(e, chain, x);
      StillThere(d, sections, chain, x);
      GoneIsGone(d, sections, chain, x);
    }
    if Attached(d, x) && x !in Others(sections) {
      var chain :| LeadsTo(d, chain, x);
      FirstStays(d, path, sections);
      NotLost(d, sections, chain, x);
    }
  }

  lemma GoneIsGone(d: Doc, sections: seq<Id>, chain: seq<Id>, x: Id)
    requires WellFormed(d) && Apart(d, sections) && Known(d, sections)
    requires LeadsTo(Merged(d, sections), chain, x)
    ensures x !in Others(sections)
  {
    hide Merged;
    MergedParent(d, sections, x);
  }

  /** After merging, the first section is the only one, with the children of all
      sections in document order. */
  lemma OneSectionIsLeft(d: Doc, path: seq<string>, sections: seq<Id>)
    requires WellFormed(d) && IsPath(path) && Found(d, path, sections) && sections != []
    ensures Known(d, sections) && Found(Merged(d, sections), path, [sections[0]])
    ensures Merged(d, sections).children[sections[0]] == ChildrenOf(d, sections)
  {
    hide Merged, Matches, WellFormed, Apart, Attached, LeadsTo;
    FoundAreApart(d, path, sections);
    SectionsAreKnown(d, sections);
    var e := Merged(d, sections);
    OthersDoNotHoldFirst(sections);
    forall x ensures x == sections[0] <==> Attached(e, x) && Matches(e, path, x) {
      NothingIsLost(d, path, sections, x);
      MergedMatches(d, path, sections, x);
    }
    OneIsFound(e, path, [sections[0]]);
    MergedChildren(d, sections);
  }

  lemma OneIsFound(d: Doc, path: seq<string>, only: seq<Id>)
    requires |only| == 1 && forall x :: x == only[0] <==> Attached(d, x) && Matches(d, path, x)
    ensures Found(d, path, only)
  {
    hide Matches, IsChain;
    assert Attached(d, only[0]);
    var chain :| LeadsTo(d, chain, only[0]);
    assert forall s :: s in only[1..] ==> s !in chain;
    assert forall x :: x in only <==> x == only[0];
  }

  lemma MergedChildren(d: Doc, sections: seq<Id>)
    requires Known(d, sections)
    ensures Merged(d, sections).children[sections[0]] == ChildrenOf(d, sections)
  {
  }

  // ----------------------------------------------------------- one path after another

  /** The paths whose sections are merged. */
  const MERGEPATHS: seq<seq<string>> := [
    ["target", "finetuning"],
    ["target", "hostsdk-pkg-list"],
    ["target", "pkg-list"],
    ["project", "mirror", "url-list"],
    ["project", "buildimage", "pkg-list"]]

  predicate Ordered(paths: seq<seq<string>>) {
    && (forall i :: 0 <= i < |paths| ==> IsPath(paths[i]))
    && forall i, j :: 0 <= i < j < |paths| ==> |paths[i]| <= |paths[j]|
  }

  lemma MergePathsAreOrdered()
    ensures Ordered(MERGEPATHS)
  {
  }

  function MergedBy(d: Doc, sections: seq<Id>): Doc {
    if Known(d, sections) then Merged(d, sections) else d
  }

  /** After the sections of one search after the other were merged. */
  function MergedAll(d: Doc, finds: seq<seq<Id>>): Doc
    decreases |finds|
  {
    if finds == [] then d else MergedAll(MergedBy(d, finds[0]), finds[1..])
  }

  /** Each search is made in the document that the earlier merges have left. */
  ghost predicate AllFound(d: Doc, paths: seq<seq<string>>, finds: seq<seq<Id>>)
    decreases |finds|
  {
    && |finds| == |paths|
    && (finds != [] ==>
          Found(d, paths[0], finds[0]) && AllFound(MergedBy(d, finds[0]), paths[1..], finds[1..]))
  }

  /** The sections that were merged into others. */
  function Dropped(finds: seq<seq<Id>>): set<Id> {
    if finds == [] then {} else Others(finds[0]) + Dropped(finds[1..])
  }

  ghost predicate AtMostOne(d: Doc, path: seq<string>) {
    forall x, y :: Attached(d, x) && Matches(d, path, x) && Attached(d, y) && Matches(d, path, y) ==> x == y
  }

  /** The loop over all paths. */
  method MergePaths(document: Document, paths: seq<seq<string>>, finds: seq<seq<Id>>)
    requires WellFormed(document.doc) && Ordered(paths) && AllFound(document.doc, paths, finds)
    modifies document
    ensures document.doc == MergedAll(old(document.doc), finds)
    ensures WellFormed(document.doc) && forall path :: path in paths ==> AtMostOne(document.doc, path)
    ensures forall x :: Attached(document.doc, x) <==> Attached(old(document.doc), x) && x !in Dropped(finds)
  {
    hide WellFormed, Found, Merged, Attached, Matches, Apart, AtMostOne, Known;
    MergedAllIsRight(document.doc, paths, finds);
    assert finds[0..] == finds && paths[0..] == paths;
    for k := 0 to |finds|
      invariant WellFormed(document.doc) && AllFound(document.doc, paths[k..], finds[k..])
      invariant MergedAll(document.doc, finds[k..]) == MergedAll(old(document.doc), finds)
    {
      var sections := finds[k];
      assert finds[k..][1..] == finds[k + 1..] && paths[k..][1..] == paths[k + 1..];
      FoundAreApart(document.doc, paths[k], sections);
      NothingToMerge(document.doc, sections);
      MergeSections(document, sections);
    }
  }

  lemma NothingToMerge(d: Doc, sections: seq<Id>)
    ensures sections == [] ==> MergedBy(d, sections) == d
  {
  }

  /** Merging for one path keeps it so that another path, no longer than this
      one, has at most one section. */
  lemma OneStaysOne(d: Doc, q: seq<string>, path: seq<string>, sections: seq<Id>)
    requires WellFormed(d) && IsPath(path) && Found(d, path, sections)
    requires 2 <= |q| <= |path| && AtMostOne(d, q)
    ensures AtMostOne(MergedBy(d, sections), q)
  {
    hide Merged, Matches, WellFormed, Apart, Attached, Found;
    if sections != [] {
      var e := MergedBy(d, sections);
      NothingIsLost(d, path, sections, sections[0]);
      FoundMatches(d, path, sections);
      forall x | Attached(e, x) && Matches(e, q, x) ensures Attached(d, x) && Matches(d, q, x) {
        NothingIsLost(d, path, sections, x);
        OtherPathsAreKept(d, path, q, sections, x);
      }
    }
  }

  lemma FoundMatches(d: Doc, path: seq<string>, sections: seq<Id>)
    requires Found(d, path, sections)
    ensures AllMatch(d, path, sections)
  {
  }

  lemma OtherPathsAreKept(d: Doc, path: seq<string>, q: seq<string>, sections: seq<Id>, x: Id)
    requires WellFormed(d) && Apart(d, sections) && Known(d, sections) && AllMatch(d, path, sections)
    requires |q| <= |path| && x !in Others(sections)
    ensures Matches(Merged(d, sections), q, x) <==> Matches(d, q, x)
  {
    MergedTagsUp(d, path, sections, x, |q|);
  }

  lemma MergedByKeeps(d: Doc, sections: seq<Id>)
    ensures MergedBy(d, sections).tag == d.tag && MergedBy(d, sections).variant == d.variant
  {
    hide FilterOut, ChildrenOf;
  }

  lemma MergedByOne(d: Doc, path: seq<string>, sections: seq<Id>)
    requires WellFormed(d) && IsPath(path) && Found(d, path, sections)
    ensures WellFormed(MergedBy(d, sections)) && AtMostOne(MergedBy(d, sections), path)
    ensures forall x :: Attached(MergedBy(d, sections), x) <==> Attached(d, x) && x !in Others(sections)
  {
    hide Merged, Matches, WellFormed, Apart, Attached;
    if sections != [] {
      FoundAreApart(d, path, sections);
      OneSectionIsLeft(d, path, sections);
      MergedIsWellFormed(d, sections);
      forall x ensures Attached(Merged(d, sections), x) <==> Attached(d, x) && x !in Others(sections) {
        NothingIsLost(d, path, sections, x);
      }
    }
  }

  lemma {:induction false} OneStaysOneForAll(d: Doc, q: seq<string>, paths: seq<seq<string>>, finds: seq<seq<Id>>)
    requires WellFormed(d) && AllFound(d, paths, finds) && AtMostOne(d, q) && |q| >= 2
    requires forall i :: 0 <= i < |paths| ==> IsPath(paths[i]) && |q| <= |paths[i]|
    ensures AtMostOne(MergedAll(d, finds), q)
    decreases |finds|
  {
    hide WellFormed, AtMostOne, Found, MergedBy;
    if finds != [] {
      OneStaysOne(d, q, paths[0], finds[0]);
      MergedByOne(d, paths[0], finds[0]);
      OneStaysOneForAll(MergedBy(d, finds[0]), q, paths[1..], finds[1..]);
    }
  }

  /** After all merges every path has at most one section left, the document has
      lost the merged sections only, and its links are consistent. */
  lemma {:induction false} MergedAllIsRight(d: Doc, paths: seq<seq<string>>, finds: seq<seq<Id>>)
    requires WellFormed(d) && Ordered(paths) && AllFound(d, paths, finds)
    ensures WellFormed(MergedAll(d, finds))
    ensures forall path :: path in paths ==> AtMostOne(MergedAll(d, finds), path)
    ensures forall x :: Attached(MergedAll(d, finds), x) <==> Attached(d, x) && x !in Dropped(finds)
    ensures MergedAll(d, finds).tag == d.tag && MergedAll(d, finds).variant == d.variant
    decreases |finds|
  {
    hide WellFormed, AtMostOne, Found, MergedBy, Attached, Others;
    if finds != [] {
      var e := MergedBy(d, finds[0]);
      MergedByKeeps(d, finds[0]);
      MergedByOne(d, paths[0], finds[0]);
      MergedAllIsRight(e, paths[1..], finds[1..]);
      OneStaysOneForAll(e, paths[0], paths[1..], finds[1..]);
      assert paths == [paths[0]] + paths[1..];
    }
  }

  // ------------------------------------------- what each section has in the end

  /** The longer path does not end like the shorter one, and its sections do not
      stand in sections of the shorter one. */
  predicate Far(path: seq<string>, q: seq<string>) {
    2 <= |path| <= |q| ==> q[|q| - |path|..] != path && q[|q| - 2] != path[|path| - 1]
  }

  /** The paths look at different places. */
  predicate Unrelated(paths: seq<seq<string>>) {
    forall i, j :: 0 <= i < j < |paths| ==> Far(paths[i], paths[j])
  }

  lemma FarTwo(a: string, x: string, b: string, y: string)
    requires (a != b || x != y) && b != x
    ensures Far([a, x], [b, y])
  {
    assert [b, y][0..] == [b, y] && [a, x][1] == x && [b, y][1] == y;
  }

  lemma FarTwoThree(a: string, x: string, root: string, b: string, y: string)
    requires (a != b || x != y) && b != x
    ensures Far([a, x], [root, b, y])
  {
    assert [root, b, y][1..] == [b, y];
    assert [b, y][0] == b && [b, y][1] == y && [a, x][0] == a && [a, x][1] == x;
  }

  lemma FarThree(root: string, a: string, x: string, b: string, y: string)
    requires (a != b || x != y) && b != x
    ensures Far([root, a, x], [root, b, y])
  {
    assert [root, b, y][0..] == [root, b, y];
    assert [root, a, x][1] == a && [root, a, x][2] == x && [root, b, y][1] == b && [root, b, y][2] == y;
  }

  lemma MergePathsAreUnrelated()
    ensures Unrelated(MERGEPATHS)
  {
    var t, p, m, b := "target", "project", "mirror", "buildimage";
    var f, h, l, u := "finetuning", "hostsdk-pkg-list", "pkg-list", "url-list";
    assert u[0] != l[0] && f != l && |m| < |l| && |t| < |l| && m[0] != t[0] && b[0] != t[0];
    assert |b| == |f| && b[0] != f[0];
    FarTwo(t, f, t, h);
    FarTwo(t, f, t, l);
    FarTwo(t, h, t, l);
    FarTwoThree(t, f, p, m, u);
    FarTwoThree(t, h, p, m, u);
    FarTwoThree(t, l, p, m, u);
    FarTwoThree(t, f, p, b, l);
    FarTwoThree(t, h, p, b, l);
    FarTwoThree(t, l, p, b, l);
    FarThree(p, m, u, b, l);
    hide Far;
    FiveApart([t, f], [t, h], [t, l], [p, m, u], [p, b, l]);
  }

  lemma FiveApart(a: seq<string>, b: seq<string>, c: seq<string>, d: seq<string>, e: seq<string>)
    requires Far(a, b) && Far(a, c) && Far(a, d) && Far(a, e) && Far(b, c)
    requires Far(b, d) && Far(b, e) && Far(c, d) && Far(c, e) && Far(d, e)
    ensures Unrelated([a, b, c, d, e])
  {
    hide Far;
  }

  /** `x` is neither a section of the search nor above one. */
  ghost predicate Untouched(d: Doc, sections: seq<Id>, x: Id) {
    x !in sections && forall s :: s in sections ==> s in d.parent && d.parent[s] != x
  }

  lemma UntouchedKeepsChildren(d: Doc, sections: seq<Id>, x: Id)
    requires WellFormed(d) && Apart(d, sections) && Known(d, sections) && x in d.children
    requires Untouched(d, sections, x)
    ensures Merged(d, sections).children[x] == d.children[x]
  {
    hide FilterOut, ChildrenOf, Apart;
    SectionsOfOthers(sections);
    FilterOutNone(d.children[x], Others(sections));
  }

  /** A section of one path is not touched by a search for an unrelated one. */
  lemma UnrelatedIsUntouched(d: Doc, path: seq<string>, q: seq<string>, sections: seq<Id>, x: Id)
    requires WellFormed(d) && Matches(d, path, x) && Found(d, q, sections) && 2 <= |path| <= |q|
    requires Far(path, q)
    ensures Untouched(d, sections, x)
  {
    hide Attached, WellFormed;
    MatchUnfolds(d, path, x);
    forall s | s in sections ensures s != x && s in d.parent && d.parent[s] != x {
      MatchUnfolds(d, q, s);
      if s == x {
        TagsUpSuffix(d, x, |q|, |path|);
      }
    }
  }

  lemma StillMatches(d: Doc, path: seq<string>, q: seq<string>, sections: seq<Id>, x: Id)
    requires WellFormed(d) && IsPath(q) && Found(d, q, sections) && |path| <= |q|
    requires Matches(d, path, x) && x !in sections && x in d.children
    ensures Matches(MergedBy(d, sections), path, x) && x in MergedBy(d, sections).children
  {
    hide Merged, Matches, WellFormed, Apart, Found, Attached;
    if sections != [] {
      FoundAreApart(d, q, sections);
      SectionsAreKnown(d, sections);
      FoundMatches(d, q, sections);
      SectionsOfOthers(sections);
      OtherPathsAreKept(d, q, path, sections, x);
      MergedIds(d, sections);
    }
  }

  /** Later merges for unrelated paths leave the children of a section alone. */
  lemma {:induction false} ChildrenStay(d: Doc, path: seq<string>, x: Id, paths: seq<seq<string>>,
                                       finds: seq<seq<Id>>)
    requires WellFormed(d) && AllFound(d, paths, finds) && Matches(d, path, x) && x in d.children && |path| >= 2
    requires forall j :: 0 <= j < |paths| ==> IsPath(paths[j]) && |path| <= |paths[j]|
    requires Unrelated([path] + paths)
    ensures x in MergedAll(d, finds).children && MergedAll(d, finds).children[x] == d.children[x]
    decreases |finds|
  {
    hide WellFormed, Found, MergedBy, Matches, Untouched, Apart, Known;
    if finds != [] {
      var q, sections, e := paths[0], finds[0], MergedBy(d, finds[0]);
      var all := [path] + paths;
      assert all[0] == path && all[1] == q;
      UnrelatedIsUntouched(d, path, q, sections, x);
      OneMergeKeepsChildren(d, q, sections, x);
      assert x !in sections by { UntouchedIsNoSection(d, sections, x); }
      StillMatches(d, path, q, sections, x);
      MergedByOne(d, q, sections);
      UnrelatedTail(path, paths);
      ChildrenStay(e, path, x, paths[1..], finds[1..]);
    }
  }

  lemma UntouchedIsNoSection(d: Doc, sections: seq<Id>, x: Id)
    requires Untouched(d, sections, x)
    ensures x !in sections
  {
  }

  lemma OneMergeKeepsChildren(d: Doc, q: seq<string>, sections: seq<Id>, x: Id)
    requires WellFormed(d) && IsPath(q) && Found(d, q, sections) && Untouched(d, sections, x) && x in d.children
    ensures x in MergedBy(d, sections).children && MergedBy(d, sections).children[x] == d.children[x]
  {
    hide Merged, Matches, WellFormed, Apart, Found, Untouched;
    if sections != [] {
      FoundAreApart(d, q, sections);
      SectionsAreKnown(d, sections);
      UntouchedKeepsChildren(d, sections, x);
      MergedIds(d, sections);
    }
  }

  lemma UnrelatedTail(path: seq<string>, paths: seq<seq<string>>)
    requires paths != [] && Unrelated([path] + paths)
    ensures Unrelated([path] + paths[1..])
  {
    hide Far;
    var all, rest := [path] + paths, [path] + paths[1..];
    forall i, j | 0 <= i < j < |rest| ensures Far(rest[i], rest[j]) {
      assert rest[j] == all[j + 1] && rest[i] == all[if i == 0 then 0 else i + 1];
    }
  }

  /** After all merges the section that is left of the first path has the children
      of all its sections, in document order. */
  lemma FirstSectionInTheEnd(d: Doc, paths: seq<seq<string>>, finds: seq<seq<Id>>)
    requires WellFormed(d) && Ordered(paths) && Unrelated(paths) && AllFound(d, paths, finds)
    requires finds != [] && finds[0] != []
    ensures Known(d, finds[0]) && finds[0][0] in MergedAll(d, finds).children
    ensures MergedAll(d, finds).children[finds[0][0]] == ChildrenOf(d, finds[0])
  {
    hide WellFormed, Merged, Matches, Attached, Apart, Unrelated;
    var path, sections := paths[0], finds[0];
    NothingIsLost(d, path, sections, sections[0]);
    OneSectionIsLeft(d, path, sections);
    MergedByOne(d, path, sections);
    var e := MergedBy(d, sections);
    FirstMatches(e, path, [sections[0]]);
    MergedIds(d, sections);
    assert paths == [path] + paths[1..];
    ChildrenStay(e, path, sections[0], paths[1..], finds[1..]);
  }

  lemma FirstMatches(d: Doc, path: seq<string>, only: seq<Id>)
    requires Found(d, path, only) && only != []
    ensures Matches(d, path, only[0])
  {
    hide Matches;
    assert only[0] in only;
  }

  lemma UnrelatedRest(paths: seq<seq<string>>)
    requires paths != [] && Ordered(paths) && Unrelated(paths)
    ensures Ordered(paths[1..]) && Unrelated(paths[1..])
  {
    hide Far, IsPath;
    var rest := paths[1..];
    forall i, j | 0 <= i < j < |rest| ensures Far(rest[i], rest[j]) && |rest[i]| <= |rest[j]| {
      assert rest[j] == paths[j + 1] && rest[i] == paths[i + 1];
    }
  }

  /** The document in which the `k`-th search is made. */
  function Before(d: Doc, finds: seq<seq<Id>>, k: nat): Doc
    requires k <= |finds|
    decreases k
  {
    if k == 0 then d else Before(MergedBy(d, finds[0]), finds[1..], k - 1)
  }

  /** And so for every path: the section that is left has, in the end, exactly the
      children of the sections that were found for it, in document order. */
  lemma {:induction false} EverySectionInTheEnd(d: Doc, paths: seq<seq<string>>, finds: seq<seq<Id>>, k: nat)
    requires WellFormed(d) && Ordered(paths) && Unrelated(paths) && AllFound(d, paths, finds)
    requires k < |finds| && finds[k] != []
    ensures Known(Before(d, finds, k), finds[k]) && finds[k][0] in MergedAll(d, finds).children
    ensures MergedAll(d, finds).children[finds[k][0]] == ChildrenOf(Before(d, finds, k), finds[k])
    decreases k
  {
    hide WellFormed, Unrelated, MergedBy, Found, Known;
    if k == 0 {
      FirstSectionInTheEnd(d, paths, finds);
    } else {
      MergedByOne(d, paths[0], finds[0]);
      UnrelatedRest(paths);
      EverySectionInTheEnd(MergedBy(d, finds[0]), paths[1..], finds[1..], k - 1);
    }
  }

  // ------------------------------------------------------ every search finds something

  lemma {:induction false} Enumerated(ids: set<Id>) returns (s: seq<Id>)
    ensures Distinct(s) && forall x :: x in s <==> x in ids
  {
    s := [];
    if ids != {} {
      var x :| x in ids;
      s := Enumerated(ids - {x});
      s := [x] + s;
    }
  }

  /** Some element of `ids` has no other one above it. */
  lemma {:induction false} Topmost(d: Doc, ids: set<Id>, chain: seq<Id>, x: Id) returns (top: seq<Id>, y: Id)
    requires x in ids && LeadsTo(d, chain, x)
    ensures y in ids && LeadsTo(d, top, y) && forall z :: z in top && z in ids ==> z == y
    decreases |chain|
  {
    top, y := chain, x;
    if i: nat :| i < |chain| && chain[i] in ids && chain[i] != x {
      top, y := Topmost(d, ids, chain[..i + 1], chain[i]);
    }
  }

  /** A search that `Found` describes is possible in every document. */
  lemma SearchIsPossible(d: Doc, path: seq<string>) returns (sections: seq<Id>)
    requires WellFormed(d) && path != []
    ensures Found(d, path, sections)
  {
    hide WellFormed, IsChain;
    var ids := set x | x in d.tag && Attached(d, x) && Matches(d, path, x);
    forall x ensures x in ids <==> Attached(d, x) && Matches(d, path, x) {
    }
    sections := [];
    if ids != {} {
      var x :| x in ids;
      var chain :| LeadsTo(d, chain, x);
      var top, y := Topmost(d, ids, chain, x);
      var rest := Enumerated(ids - {y});
      sections := [y] + rest;
      assert sections[1..] == rest;
      assert LeadsTo(d, top, sections[0]) && forall s :: s in sections[1..] ==> s !in top;
    }
  }
}
