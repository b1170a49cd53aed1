/** Choosing the variants of a source document and merging the sections that may
    occur several times. The tree is changed in place, through the links between
    elements. */
module Variants {
  import opened Lists

  type Id = nat

  /** The elements of a tree: their tags, the links in both directions, and their
      `variant` attributes. */
  datatype Doc = Doc(
    root: Id,
    tag: map<Id, string>,
    parent: map<Id, Id>,
    children: map<Id, seq<Id>>,
    variant: map<Id, set<string>>)

  ghost predicate HasIds(d: Doc) {
    && d.tag.Keys == d.children.Keys
    && d.root in d.tag && d.root !in d.parent
    && forall x :: x in d.parent ==> x in d.tag && d.parent[x] in d.children
  }

  ghost predicate LinksDown(d: Doc)
    requires HasIds(d)
  {
    forall x :: x in d.parent ==> x in d.children[d.parent[x]]
  }

  ghost predicate LinksUp(d: Doc) {
    forall p, x :: p in d.children && x in d.children[p] ==> x in d.parent && d.parent[x] == p
  }

  ghost predicate NoRepeats(d: Doc) {
    forall p :: p in d.children ==> Distinct(d.children[p])
  }

  ghost predicate WellFormed(d: Doc) {
    HasIds(d) && LinksDown(d) && LinksUp(d) && NoRepeats(d)
  }

  /** A way down from the root. */
  ghost predicate IsChain(d: Doc, chain: seq<Id>) {
    && chain != [] && chain[0] == d.root
    && forall i :: 0 < i < |chain| ==> chain[i] in d.parent && d.parent[chain[i]] == chain[i - 1]
  }

  ghost predicate LeadsTo(d: Doc, chain: seq<Id>, x: Id) {
    IsChain(d, chain) && chain[|chain| - 1] == x
  }

  /** The element is part of the document. */
  ghost predicate Attached(d: Doc, x: Id) {
    exists chain :: LeadsTo(d, chain, x)
  }

  /** `order` visits every element of the document once, the root first. */
  ghost predicate Visits(d: Doc, order: seq<Id>) {
    && order != [] && order[0] == d.root && Distinct(order)
    && forall x :: x in order <==> Attached(d, x)
  }

  lemma AttachedParent(d: Doc, x: Id)
    requires WellFormed(d) && Attached(d, x) && x != d.root
    ensures x in d.parent && Attached(d, d.parent[x])
  {
    var chain :| LeadsTo(d, chain, x);
    assert LeadsTo(d, chain[..|chain| - 1], d.parent[x]);
  }

  lemma AttachedChild(d: Doc, x: Id)
    requires x in d.parent && Attached(d, d.parent[x])
    ensures Attached(d, x)
  {
    var chain :| LeadsTo(d, chain, d.parent[x]);
    assert LeadsTo(d, chain + [x], x);
  }

  lemma RootIsAttached(d: Doc)
    ensures Attached(d, d.root)
  {
    assert LeadsTo(d, [d.root], d.root);
  }

  // ------------------------------------------------------------ taking elements out

  function FilterOut(s: seq<Id>, gone: set<Id>): seq<Id> {
    if s == [] then []
    else if s[0] in gone then FilterOut(s[1..], gone)
    else [s[0]] + FilterOut(s[1..], gone)
  }

  lemma {:induction false} FilterOutElements(s: seq<Id>, gone: set<Id>)
    ensures forall x :: x in FilterOut(s, gone) <==> x in s && x !in gone
    ensures Distinct(s) ==> Distinct(FilterOut(s, gone))
  {
    if s != [] {
      FilterOutElements(s[1..], gone);
      assert s == [s[0]] + s[1..];
    }
  }

  /** What stays keeps its order. */
  lemma {:induction false} FilterOutAppend(s: seq<Id>, t: seq<Id>, gone: set<Id>)
    ensures FilterOut(s + t, gone) == FilterOut(s, gone) + FilterOut(t, gone)
  {
    hide FilterOut;
    if s == [] {
      FilterOutFirst(0, [], gone);
      assert s + t == t;
    } else {
      FilterOutAppend(s[1..], t, gone);
      FilterOutFirst(s[0], s[1..], gone);
      FilterOutFirst(s[0], s[1..] + t, gone);
      assert s == [s[0]] + s[1..] && s + t == [s[0]] + (s[1..] + t);
    }
  }

  lemma FilterOutFirst(x: Id, s: seq<Id>, gone: set<Id>)
    ensures FilterOut([x] + s, gone) == (if x in gone then [] else [x]) + FilterOut(s, gone)
    ensures FilterOut([], gone) == []
  {
    assert ([x] + s)[1..] == s;
  }

  lemma {:induction false} FilterOutTwice(s: seq<Id>, a: set<Id>, b: set<Id>)
    ensures FilterOut(FilterOut(s, a), b) == FilterOut(s, a + b)
  {
    if s != [] {
      FilterOutTwice(s[1..], a, b);
      if s[0] !in a {
        assert FilterOut(s, a)[1..] == FilterOut(s[1..], a);
      }
    }
  }

  lemma {:induction false} FilterOutNone(s: seq<Id>, gone: set<Id>)
    requires forall x :: x in s ==> x !in gone
    ensures FilterOut(s, gone) == s
  {
    if s != [] {
      FilterOutNone(s[1..], gone);
      assert s == [s[0]] + s[1..];
    }
  }

  /** The document without the links to the elements `gone`. */
  function Without(d: Doc, gone: set<Id>): Doc {
    d.(parent := map x | x in d.parent && x !in gone :: d.parent[x],
       children := map p | p in d.children :: FilterOut(d.children[p], gone))
  }

  lemma ChildrenWithout(d: Doc, gone: set<Id>, p: Id)
    requires p in d.children
    ensures forall x :: x in Without(d, gone).children[p] <==> x in d.children[p] && x !in gone
    ensures Distinct(d.children[p]) ==> Distinct(Without(d, gone).children[p])
  {
    FilterOutElements(d.children[p], gone);
  }

  lemma WithoutIsWellFormed(d: Doc, gone: set<Id>)
    requires WellFormed(d)
    ensures WellFormed(Without(d, gone))
  {
    hide Distinct, FilterOut, LinksUp, LinksDown, NoRepeats;
    var e := Without(d, gone);
    assert LinksUp(e) by { LinksUpWithout(d, gone); }
    assert LinksDown(e) by { LinksDownWithout(d, gone); }
    assert NoRepeats(e) by { NoRepeatsWithout(d, gone); }
  }

  lemma LinksUpWithout(d: Doc, gone: set<Id>)
    requires LinksUp(d)
    ensures LinksUp(Without(d, gone))
  {
    hide Distinct, FilterOut;
    var e := Without(d, gone);
    forall p, x | p in e.children && x in e.children[p] ensures x in e.parent && e.parent[x] == p {
      ChildrenWithout(d, gone, p);
    }
  }

  lemma LinksDownWithout(d: Doc, gone: set<Id>)
    requires HasIds(d) && LinksDown(d) && HasIds(Without(d, gone))
    ensures LinksDown(Without(d, gone))
  {
    hide Distinct, FilterOut;
    var e := Without(d, gone);
    forall x | x in e.parent ensures x in e.children[e.parent[x]] {
      ChildrenWithout(d, gone, d.parent[x]);
    }
  }

  lemma NoRepeatsWithout(d: Doc, gone: set<Id>)
    requires NoRepeats(d)
    ensures NoRepeats(Without(d, gone))
  {
    hide Distinct, FilterOut;
    var e := Without(d, gone);
    forall p | p in e.children ensures Distinct(e.children[p]) {
      ChildrenWithout(d, gone, p);
    }
  }

  lemma WithoutTwice(d: Doc, a: set<Id>, b: set<Id>)
    ensures Without(Without(d, a), b) == Without(d, a + b)
  {
    forall p | p in d.children
      ensures Without(Without(d, a), b).children[p] == Without(d, a + b).children[p]
    {
      FilterOutTwice(d.children[p], a, b);
    }
    assert Without(Without(d, a), b).children == Without(d, a + b).children;
    assert Without(Without(d, a), b).parent == Without(d, a + b).parent;
  }

  lemma WithoutNone(d: Doc)
    ensures Without(d, {}) == d
  {
    forall p | p in d.children ensures FilterOut(d.children[p], {}) == d.children[p] {
      FilterOutNone(d.children[p], {});
    }
    assert Without(d, {}).children == d.children && Without(d, {}).parent == d.parent;
  }

  /** Taking out one element touches its parent's list only. */
  lemma WithoutOne(d: Doc, x: Id)
    requires WellFormed(d) && x in d.parent
    ensures var p := d.parent[x];
            Without(d, {x}) == d.(parent := d.parent - {x}, children := d.children[p := FilterOut(d.children[p], {x})])
  {
    hide FilterOut, Distinct;
    var p := d.parent[x];
    forall q | q in d.children && q != p ensures FilterOut(d.children[q], {x}) == d.children[q] {
      assert x !in d.children[q];
      FilterOutNone(d.children[q], {x});
    }
    assert Without(d, {x}).children == d.children[p := FilterOut(d.children[p], {x})];
    assert Without(d, {x}).parent == d.parent - {x};
  }

  /** The ways down that remain are those that met none of the elements. */
  lemma ChainsWithout(d: Doc, gone: set<Id>, chain: seq<Id>)
    requires d.root !in gone
    ensures IsChain(Without(d, gone), chain) <==> IsChain(d, chain) && forall x :: x in chain ==> x !in gone
  {
    var e := Without(d, gone);
    if IsChain(e, chain) {
      forall x | x in chain ensures x !in gone {
        var i :| 0 <= i < |chain| && chain[i] == x;
        assert i > 0 ==> chain[i] in e.parent;
      }
    }
  }

  // ------------------------------------------------------------ choosing variants

  /** The element is for other variants only. */
  predicate Unwanted(d: Doc, active: set<string>, x: Id) {
    x in d.variant && d.variant[x] * active == {}
  }

  function UnwantedOf(d: Doc, active: set<string>, order: seq<Id>): seq<Id> {
    if order == [] then []
    else UnwantedOf(d, active, order[..|order| - 1])
         + if Unwanted(d, active, order[|order| - 1]) then [order[|order| - 1]] else []
  }

  lemma {:induction false} UnwantedElements(d: Doc, active: set<string>, order: seq<Id>)
    ensures forall x :: x in UnwantedOf(d, active, order) <==> x in order && Unwanted(d, active, x)
    ensures Distinct(order) ==> Distinct(UnwantedOf(d, active, order))
    ensures order != [] && Unwanted(d, active, order[0])
            ==> UnwantedOf(d, active, order) != [] && UnwantedOf(d, active, order)[0] == order[0]
  {
    hide Unwanted;
    if order != [] {
      var init, last := order[..|order| - 1], order[|order| - 1];
      assert order == init + [last];
      UnwantedElements(d, active, init);
    }
  }

  /** The `variant` attributes left after the elements of `order` were looked at. */
  function Popped(d: Doc, active: set<string>, order: seq<Id>): map<Id, set<string>> {
    map x | x in d.variant && (x !in order || Unwanted(d, active, x)) :: d.variant[x]
  }

  /** What the elements of the document should be. */
  function Selected(d: Doc, active: set<string>, order: seq<Id>): Doc {
    var gone := set x | x in order && Unwanted(d, active, x);
    Without(d, gone).(variant := Popped(d, active, order))
  }

  class Document {
    var doc: Doc

    constructor (doc: Doc)
      ensures this.doc == doc
    {
      this.doc := doc;
    }

    /** `x.getparent().remove(x)`; false if there is no parent. */
    method RemoveFromParent(x: Id) returns (ok: bool)
      requires WellFormed(doc)
      modifies this
      ensures ok <==> x in old(doc).parent
      ensures doc == if ok then Without(old(doc), {x}) else old(doc)
    {
      if x !in doc.parent {
        return false;
      }
      var p := doc.parent[x];
      WithoutOne(doc, x);
      doc := doc.(children := doc.children[p := FilterOut(doc.children[p], {x})]);
      doc := doc.(parent := doc.parent - {x});
      ok := true;
    }

    /** First notes what has to go and drops the attribute of what stays, then
        takes the noted elements out, which fails only for the root. */
    method SelectVariants(active: set<string>, order: seq<Id>) returns (ok: bool)
      requires WellFormed(doc) && Visits(doc, order)
      modifies this
      ensures ok <==> !Unwanted(old(doc), active, old(doc).root)
      ensures WellFormed(doc)
      ensures ok ==> doc == Selected(old(doc), active, order)
      ensures !ok ==> doc.parent == old(doc).parent && doc.children == old(doc).children
    {
      hide Unwanted, Without, WellFormed;
      ghost var d := doc;
      var rmlist := MarkUnwanted(active, order);
      UnwantedElements(d, active, order);
      WithoutNone(doc);
      ghost var marked := doc;
      assert Elements(rmlist[..0]) == {};
      for i := 0 to |rmlist|
        invariant WellFormed(doc) && doc == Without(marked, Elements(rmlist[..i]))
        invariant i > 0 ==> !Unwanted(d, active, d.root)
      {
        StillLinked(d, active, order, rmlist, marked, i);
        var removed := RemoveFromParent(rmlist[i]);
        if !removed {
          return false;
        }
        WithoutTwice(marked, Elements(rmlist[..i]), {rmlist[i]});
        ElementsSnoc(rmlist, i);
        WithoutIsWellFormed(marked, Elements(rmlist[..i + 1]));
      }
      assert rmlist[..|rmlist|] == rmlist;
      MarkedIsSelected(d, active, order, rmlist);
      ok := true;
    }

    method MarkUnwanted(active: set<string>, order: seq<Id>) returns (rmlist: seq<Id>)
      requires WellFormed(doc) && Distinct(order)
      modifies this
      ensures doc == old(doc).(variant := Popped(old(doc), active, order)) && WellFormed(doc)
      ensures rmlist == UnwantedOf(old(doc), active, order)
    {
      hide Popped, WellFormed;
      ghost var d := doc;
      rmlist := [];
      PoppedNone(d, active);
      assert order[..0] == [];
      for i := 0 to |order|
        invariant doc == d.(variant := Popped(d, active, order[..i]))
        invariant rmlist == UnwantedOf(d, active, order[..i])
      {
        var x := order[i];
        PoppedNext(d, active, order, i);
        assert order[..i + 1][..i] == order[..i];
        if x in doc.variant {
          if doc.variant[x] * active != {} {
            doc := doc.(variant := doc.variant - {x});
          } else {
            rmlist := rmlist + [x];
          }
        }
      }
      assert order[..|order|] == order;
      SameLinks(d, doc);
    }
  }

  lemma SameLinks(d: Doc, e: Doc)
    requires WellFormed(d) && e == d.(variant := e.variant)
    ensures WellFormed(e)
  {
  }

  lemma PoppedNone(d: Doc, active: set<string>)
    ensures Popped(d, active, []) == d.variant
  {
  }

  lemma PoppedNext(d: Doc, active: set<string>, order: seq<Id>, i: nat)
    requires i < |order| && Distinct(order)
    ensures var before, after := Popped(d, active, order[..i]), Popped(d, active, order[..i + 1]);
            && (order[i] in before <==> order[i] in d.variant)
            && (order[i] in before ==> before[order[i]] == d.variant[order[i]])
            && after == if order[i] in d.variant && !Unwanted(d, active, order[i]) then before - {order[i]} else before
  {
    hide Unwanted;
    assert order[i] !in order[..i];
    assert order[..i + 1] == order[..i] + [order[i]];
  }

  lemma ElementsSnoc(s: seq<Id>, i: nat)
    requires i < |s|
    ensures Elements(s[..i]) + {s[i]} == Elements(s[..i + 1])
  {
    assert s[..i + 1] == s[..i] + [s[i]];
  }

  lemma StillLinked(d: Doc, active: set<string>, order: seq<Id>, rmlist: seq<Id>, marked: Doc, i: nat)
    requires WellFormed(d) && Visits(d, order) && i < |rmlist|
    requires rmlist == UnwantedOf(d, active, order)
    requires marked == d.(variant := Popped(d, active, order))
    ensures rmlist[i] in Without(marked, Elements(rmlist[..i])).parent <==> rmlist[i] != d.root
    ensures rmlist[i] == d.root ==> Unwanted(d, active, d.root)
    ensures rmlist[i] != d.root && i == 0 ==> !Unwanted(d, active, d.root)
  {
    UnwantedElements(d, active, order);
    var x := rmlist[i];
    assert x in rmlist;
    assert x !in rmlist[..i];
    if x != d.root {
      AttachedParent(d, x);
    }
  }

  lemma MarkedIsSelected(d: Doc, active: set<string>, order: seq<Id>, rmlist: seq<Id>)
    requires rmlist == UnwantedOf(d, active, order)
    ensures Without(d.(variant := Popped(d, active, order)), Elements(rmlist)) == Selected(d, active, order)
  {
    hide Unwanted;
    UnwantedElements(d, active, order);
    assert Elements(rmlist) == set x | x in order && Unwanted(d, active, x);
  }

  lemma ChainIsAttached(d: Doc, chain: seq<Id>, x: Id)
    requires IsChain(d, chain) && x in chain
    ensures Attached(d, x)
  {
    var i :| 0 <= i < |chain| && chain[i] == x;
    assert LeadsTo(d, chain[..i + 1], x);
  }

  ghost predicate ShareOne(variants: set<string>, active: set<string>) {
    exists v :: v in variants && v in active
  }

  lemma SharesNone(d: Doc, active: set<string>, x: Id)
    ensures Unwanted(d, active, x) <==> x in d.variant && !ShareOne(d.variant[x], active)
  {
    if x in d.variant {
      if d.variant[x] * active != {} {
        var v :| v in d.variant[x] * active;
        assert v in d.variant[x] && v in active;
      }
      if v :| v in d.variant[x] && v in active {
        assert v in d.variant[x] * active;
      }
    }
  }

  /** An element stays with the whole way to it exactly when it and every
      element above it have no variants or an active one. */
  lemma SelectedChains(d: Doc, active: set<string>, order: seq<Id>, chain: seq<Id>)
    requires WellFormed(d) && Visits(d, order) && !Unwanted(d, active, d.root)
    ensures IsChain(Selected(d, active, order), chain)
            <==> IsChain(d, chain)
                 && forall x :: x in chain && x in d.variant ==> ShareOne(d.variant[x], active)
  {
    forall x ensures Unwanted(d, active, x) <==> x in d.variant && !ShareOne(d.variant[x], active) {
      SharesNone(d, active, x);
    }
    hide Unwanted, Without, Popped, ShareOne;
    var gone := set x | x in order && Unwanted(d, active, x);
    SameChains(Selected(d, active, order), Without(d, gone), chain);
    ChainsWithout(d, gone, chain);
    if IsChain(d, chain) {
      forall x | x in chain ensures x in order && (x !in gone <==> x !in d.variant || ShareOne(d.variant[x], active)) {
        ChainIsAttached(d, chain, x);
        assert x in gone <==> Unwanted(d, active, x);
      }
    }
  }

  lemma SameChains(d: Doc, e: Doc, chain: seq<Id>)
    requires d.root == e.root && d.parent == e.parent
    ensures IsChain(d, chain) <==> IsChain(e, chain)
  {
  }

  /** No element of the result has a `variant` attribute. */
  lemma NoVariantIsLeft(d: Doc, active: set<string>, order: seq<Id>, x: Id)
    requires WellFormed(d) && Visits(d, order) && !Unwanted(d, active, d.root)
    requires Attached(Selected(d, active, order), x)
    ensures Attached(d, x) && x !in Selected(d, active, order).variant
  {
    hide Without, Unwanted;
    var chain :| LeadsTo(Selected(d, active, order), chain, x);
    SelectedChains(d, active, order, chain);
    SharesNone(d, active, x);
    ChainIsAttached(d, chain, x);
  }

  /** Choosing again changes nothing, whatever the active variants are then. */
  lemma SelectingTwice(d: Doc, active: set<string>, order: seq<Id>, again: set<string>, order2: seq<Id>)
    requires WellFormed(d) && Visits(d, order) && !Unwanted(d, active, d.root)
    requires Visits(Selected(d, active, order), order2)
    ensures Selected(Selected(d, active, order), again, order2) == Selected(d, active, order)
  {
    hide Without, Selected;
    var e := Selected(d, active, order);
    forall x | x in order2 ensures x !in e.variant {
      NoVariantIsLeft(d, active, order, x);
    }
    NothingToSelect(e, again, order2);
  }

  lemma NothingToSelect(d: Doc, active: set<string>, order: seq<Id>)
    requires forall x :: x in order ==> x !in d.variant
    ensures Selected(d, active, order) == d
  {
    WithoutNone(d);
    assert (set x | x in order && Unwanted(d, active, x)) == {};
    assert Popped(d, active, order) == d.variant;
  }

  /** With more active variants nothing is lost. */
  lemma SelectingMore(d: Doc, active: set<string>, more: set<string>, order: seq<Id>, x: Id)
    requires WellFormed(d) && Visits(d, order)
    requires active <= more && !Unwanted(d, active, d.root)
    requires Attached(Selected(d, active, order), x)
    ensures !Unwanted(d, more, d.root) && Attached(Selected(d, more, order), x)
  {
    hide Without, Selected;
    var chain :| LeadsTo(Selected(d, active, order), chain, x);
    assert forall y :: Unwanted(d, more, y) ==> Unwanted(d, active, y);
    SelectedChains(d, active, order, chain);
    SelectedChains(d, more, order, chain);
    assert LeadsTo(Selected(d, more, order), chain, x);
  }
}
