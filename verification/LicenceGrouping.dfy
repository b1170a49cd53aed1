/** Exactly when the translation of a licence text keeps its grouping. */
module LicenceGrouping {
  import opened Licence
  import opened LicenceMeaning
  import opened Lists

  // ------------------------------------------------------ the licences of a text

  /** `u` is a licence of the expression. */
  ghost predicate IsUnit(u: Text, ws: Text) {
    exists p :: p in Top(ws, "OR", 0) && u in Top(p, "AND", 0)
  }

  lemma UnitOfPart(u: Text, p: Text, ws: Text)
    requires p in Top(ws, "OR", 0) && u in Top(p, "AND", 0)
    ensures IsUnit(u, ws)
  {
  }

  /** The parts between operators outside all parentheses are closed. */
  lemma {:induction false} PartsAreLevel(ws: Text, op: string, d: int)
    requires Balance(op) == 0 && d + Level(ws) == 0
    ensures var parts := Top(ws, op, d);
            Level(parts[0]) == -d && forall i :: 0 < i < |parts| ==> Level(parts[i]) == 0
  {
    if ws != [] {
      var w, rest := ws[0], Top(ws[1..], op, d + Balance(ws[0]));
      hide Balance, Top;
      PartsAreLevel(ws[1..], op, d + Balance(w));
      TopOfWord(w, ws[1..], op, d);
      assert ws == [w] + ws[1..];
      assert ([w] + rest[0])[1..] == rest[0];
    }
  }

  lemma PartIsLevel(ws: Text, p: Text)
    requires Level(ws) == 0 && p in Top(ws, "OR", 0)
    ensures Level(p) == 0
  {
    hide Top, Balance, Level;
    OperatorsAreLevel();
    PartsAreLevel(ws, "OR", 0);
  }

  /** What `AND` makes of the alternatives of both sides: all stay but the two
      beside it, which become one. */
  lemma PartsOfAnd(a: Text, b: Text)
    ensures var s, t := Top(a, "OR", 0), Top(b, "OR", 0);
            Level(a) == 0 ==>
              Top(a + ["AND"] + b, "OR", 0) == Front(s) + [Last(s) + ["AND"] + t[0]] + t[1..]
  {
    hide Top, Balance;
    OperatorsAreLevel();
    var s, t := Top(a, "OR", 0), Top(b, "OR", 0);
    if Level(a) == 0 {
      assert a + ["AND"] + b == a + (["AND"] + b);
      TopAppend(a, ["AND"] + b, "OR", 0);
      TopOfWord("AND", b, "OR", 0);
      assert Last(s) + (["AND"] + t[0]) == Last(s) + ["AND"] + t[0];
    }
  }

  lemma UnitsOfAnd(a: Text, b: Text, p: Text, u: Text)
    requires Level(a) == 0 && p in Top(a + ["AND"] + b, "OR", 0) && u in Top(p, "AND", 0)
    ensures IsUnit(u, a) || IsUnit(u, b)
  {
    hide Top, Balance, IsUnit;
    var s, t := Top(a, "OR", 0), Top(b, "OR", 0);
    PartsOfAnd(a, b);
    if p in Front(s) {
      UnitOfPart(u, p, a);
    } else if p in t[1..] {
      UnitOfPart(u, p, b);
    } else {
      assert p == Last(s) + ["AND"] + t[0] && Last(s) in s && t[0] in t;
      OperatorsAreLevel();
      PartIsLevel(a, Last(s));
      TopJoined(Last(s), "AND", t[0]);
      if u in Top(Last(s), "AND", 0) {
        UnitOfPart(u, Last(s), a);
      } else {
        UnitOfPart(u, t[0], b);
      }
    }
  }

  /** Joining adds no licence. */
  lemma {:induction false} UnitsOfJoin(parts: seq<Text>, u: Text)
    requires parts != [] && (forall r :: r in parts ==> Level(r) == 0) && IsUnit(u, Join(parts, "AND"))
    ensures exists r :: r in parts && IsUnit(u, r)
  {
    hide Top, Balance, Level;
    if |parts| == 1 {
      assert parts[0] in parts;
    } else {
      var rest := parts[1..];
      var p :| p in Top(Join(parts, "AND"), "OR", 0) && u in Top(p, "AND", 0);
      UnitsOfAnd(parts[0], Join(rest, "AND"), p, u);
      if IsUnit(u, parts[0]) {
        assert parts[0] in parts;
      } else {
        UnitsOfJoin(rest, u);
        var r :| r in rest && IsUnit(u, r);
        assert r in parts;
      }
    }
  }

  lemma {:induction false} OnePartIsFree(ws: Text, op: string, d: int)
    ensures |Top(ws, op, d)| == 1 <==> Top(ws, op, d) == [ws]
  {
    if ws != [] {
      OnePartIsFree(ws[1..], op, d + Balance(ws[0]));
      assert ws == [ws[0]] + ws[1..];
    }
  }

  lemma NotFreeHasParts(ws: Text)
    ensures Free(ws, "OR") <==> |Top(ws, "OR", 0)| == 1
  {
    OnePartIsFree(ws, "OR", 0);
  }

  lemma {:induction false} JoinIsFree(parts: seq<Text>)
    requires parts != [] && forall r :: r in parts ==> Level(r) == 0
    ensures Free(Join(parts, "AND"), "OR") <==> forall r :: r in parts ==> Free(r, "OR")
  {
    hide Top, Balance, Level, Free;
    if |parts| > 1 {
      var a, b := parts[0], Join(parts[1..], "AND");
      JoinIsFree(parts[1..]);
      NotFreeHasParts(a);
      NotFreeHasParts(b);
      NotFreeHasParts(a + ["AND"] + b);
      PartsOfAnd(a, b);
      assert parts == [a] + parts[1..];
    } else {
      assert forall r :: r in parts ==> r == parts[0];
    }
  }

  /** If some licence of a clause of several brings an `OR` along, one alternative
      of the translated clause says nothing about one of the licences. */
  lemma LooseAlternative(parts: seq<Text>) returns (q: Text, i: nat)
    requires |parts| >= 2 && forall r :: r in parts ==> Level(r) == 0
    requires !(forall r :: r in parts ==> Free(r, "OR"))
    ensures q in Top(Join(parts, "AND"), "OR", 0) && i < |parts|
    ensures forall u :: u in Top(q, "AND", 0) ==> exists j :: 0 <= j < |parts| && j != i && IsUnit(u, parts[j])
  {
    hide Top, Balance, Level, Free;
    var a, rest := parts[0], parts[1..];
    var b := Join(rest, "AND");
    var s, t := Top(a, "OR", 0), Top(b, "OR", 0);
    PartsOfAnd(a, b);
    assert parts == [a] + rest;
    NotFreeHasParts(a);
    if !Free(a, "OR") {
      q, i := s[0], 1;
      assert q in Front(s);
      forall u | u in Top(q, "AND", 0) ensures exists j :: 0 <= j < |parts| && j != i && IsUnit(u, parts[j]) {
        UnitOfPart(u, q, a);
        assert IsUnit(u, parts[0]);
      }
    } else {
      JoinIsFree(rest);
      NotFreeHasParts(b);
      q, i := t[1], 0;
      assert q in t[1..];
      forall u | u in Top(q, "AND", 0) ensures exists j :: 0 <= j < |parts| && j != i && IsUnit(u, parts[j]) {
        UnitOfPart(u, q, b);
        UnitsOfJoin(rest, u);
        var r :| r in rest && IsUnit(u, r);
        var j :| 0 <= j < |rest| && rest[j] == r;
        assert parts[j + 1] == r;
      }
    }
  }

  // ----------------------------------------------- the licences inside parentheses

  /** The licences of an expression, also those in parentheses. */
  function Leaves(ws: Text): set<Text>
    decreases Size(ws), 2
  {
    set p, x | p in Top(ws, "OR", 0) && x in LeavesAnd(p) :: x
  }

  function LeavesAnd(ws: Text): set<Text>
    decreases Size(ws), 1
  {
    set u, x | u in Top(ws, "AND", 0) && x in LeavesUnit(u) :: x
  }

  function LeavesUnit(ws: Text): set<Text>
    decreases Size(ws), 0
  {
    if Enclosed(ws) then
      StripIsSmaller(ws);
      Leaves(Strip(ws))
    else {ws}
  }

  /** What holds has one of its licences. */
  lemma {:induction false} SomeLeaf(ws: Text, v: set<Text>) returns (x: Text)
    requires Read(ws, v)
    ensures x in Leaves(ws) && x in v
    decreases Size(ws), 2
  {
    hide Top, Enclosed;
    var p :| p in Top(ws, "OR", 0) && ReadAnd(p, v);
    x := SomeLeafAnd(p, v);
  }

  lemma {:induction false} SomeLeafAnd(ws: Text, v: set<Text>) returns (x: Text)
    requires ReadAnd(ws, v)
    ensures x in LeavesAnd(ws) && x in v
    decreases Size(ws), 1
  {
    hide Top, Enclosed;
    var u := Top(ws, "AND", 0)[0];
    assert u in Top(ws, "AND", 0);
    x := SomeLeafUnit(u, v);
  }

  lemma {:induction false} SomeLeafUnit(ws: Text, v: set<Text>) returns (x: Text)
    requires ReadUnit(ws, v)
    ensures x in LeavesUnit(ws) && x in v
    decreases Size(ws), 0
  {
    x := ws;
    if Enclosed(ws) {
      StripIsSmaller(ws);
      x := SomeLeaf(Strip(ws), v);
    }
  }

  /** With all its licences an expression holds. */
  lemma {:induction false} AllLeaves(ws: Text, v: set<Text>)
    requires Leaves(ws) <= v
    ensures Read(ws, v)
    decreases Size(ws), 2
  {
    hide Top, Enclosed;
    var p := Top(ws, "OR", 0)[0];
    assert p in Top(ws, "OR", 0);
    AllLeavesAnd(p, v);
  }

  lemma {:induction false} AllLeavesAnd(ws: Text, v: set<Text>)
    requires LeavesAnd(ws) <= v
    ensures ReadAnd(ws, v)
    decreases Size(ws), 1
  {
    hide Top, Enclosed;
    forall u | u in Top(ws, "AND", 0) ensures ReadUnit(u, v) {
      AllLeavesUnit(u, v);
    }
  }

  lemma {:induction false} AllLeavesUnit(ws: Text, v: set<Text>)
    requires LeavesUnit(ws) <= v
    ensures ReadUnit(ws, v)
    decreases Size(ws), 0
  {
    if Enclosed(ws) {
      StripIsSmaller(ws);
      AllLeaves(Strip(ws), v);
    }
  }

  lemma LeafOfUnit(x: Text, u: Text, ws: Text)
    requires IsUnit(u, ws) && x in LeavesUnit(u)
    ensures x in Leaves(ws)
  {
    hide Top, LeavesUnit;
    var p :| p in Top(ws, "OR", 0) && u in Top(p, "AND", 0);
    assert x in LeavesAnd(p);
  }

  // --------------------------------------------------------- texts without repeats

  function Clauses(text: Text): seq<Text> {
    Split(text, "or")
  }

  function Licences(text: Text, k: nat): seq<Text>
    requires k < |Clauses(text)|
  {
    Split(Clauses(text)[k], "and")
  }

  /** How the `i`-th licence of the `k`-th clause is rendered. */
  function Rendered(m: Mapping, text: Text, k: nat, i: nat): Text
    requires k < |Clauses(text)| && i < |Licences(text, k)|
  {
    Render(m, Licences(text, k)[i])
  }

  /** Every licence is rendered as a closed text, and no licence in it, however
      deep in parentheses, occurs in the rendering of another place. */
  ghost predicate Separate(m: Mapping, text: Text) {
    && (forall k: nat, i: nat :: k < |Clauses(text)| && i < |Licences(text, k)| ==>
          Level(Rendered(m, text, k, i)) == 0)
    && (forall k: nat, i: nat, k': nat, i': nat, x ::
          && k < |Clauses(text)| && i < |Licences(text, k)| && x in Leaves(Rendered(m, text, k, i))
          && k' < |Clauses(text)| && i' < |Licences(text, k')| && x in Leaves(Rendered(m, text, k', i'))
          ==> k == k' && i == i')
  }

  predicate TextHolds(m: Mapping, text: Text, v: set<Text>) {
    exists c :: c in Clauses(text) && ClauseHolds(m, c, v)
  }

  lemma {:induction false} RenderAllAt(m: Mapping, lics: seq<Text>)
    ensures |RenderAll(m, lics)| == |lics|
    ensures forall j :: 0 <= j < |lics| ==> RenderAll(m, lics)[j] == Render(m, lics[j])
  {
    hide Render;
    if lics != [] {
      RenderAllAt(m, lics[1..]);
    }
  }

  /** `v` makes the text hold only if it has a licence of every rendering of some
      clause. */
  lemma TextHoldsBySome(m: Mapping, text: Text, v: set<Text>, k: nat, i: nat) returns (k': nat, i': nat, x: Text)
    requires TextHolds(m, text, v) && k < |Clauses(text)| && i < |Licences(text, k)|
    ensures k' < |Clauses(text)| && i' < |Licences(text, k')| && (k' == k ==> i' == i)
    ensures x in v && x in Leaves(Rendered(m, text, k', i'))
  {
    hide Split, SplitFrom, Render, Read, Leaves;
    var c :| c in Clauses(text) && ClauseHolds(m, c, v);
    k' :| k' < |Clauses(text)| && Clauses(text)[k'] == c;
    i' := if k' == k then i else 0;
    assert Licences(text, k')[i'] in Licences(text, k');
    x := SomeLeaf(Rendered(m, text, k', i'), v);
  }

  /** `x` is in no rendering of another clause, nor in that of this place. */
  ghost predicate NotIn(m: Mapping, text: Text, k: nat, i: nat, x: Text) {
    forall k': nat, i': nat :: k' < |Clauses(text)| && i' < |Licences(text, k')| && (k' == k ==> i' == i)
                               ==> x !in Leaves(Rendered(m, text, k', i'))
  }

  lemma LeafElsewhere(m: Mapping, text: Text, k: nat, i: nat, j: nat, x: Text)
    requires Separate(m, text) && k < |Clauses(text)|
    requires j < |Licences(text, k)| && j != i && x in Leaves(Rendered(m, text, k, j))
    ensures NotIn(m, text, k, i, x)
  {
    hide Split, SplitFrom, Render, Leaves, Level;
  }

  /** An unsafe clause: the licences of its loose alternative make the translation
      hold, but not the text. */
  lemma UnsafeClauseIsMisread(m: Mapping, text: Text, k: nat) returns (v: set<Text>)
    requires Separate(m, text) && k < |Clauses(text)| && !ClauseIsSafe(m, Clauses(text)[k])
    ensures Read(MapString(m, text), v) && !TextHolds(m, text, v)
  {
    hide Split, SplitFrom, Render, Read, Top, IsUnit, Join, Balance, TextHolds, Leaves, LeavesUnit, NotIn;
    var lics := Licences(text, k);
    var parts := RenderAll(m, lics);
    RenderAllAt(m, lics);
    SeparateIsLevel(m, text, k);
    UnsafeHasOr(m, Clauses(text)[k], parts);
    var q, i := LooseAlternative(parts);
    v := LeavesAnd(q);
    forall x | x in v ensures NotIn(m, text, k, i, x) {
      var u :| u in Top(q, "AND", 0) && x in LeavesUnit(u);
      var j :| 0 <= j < |parts| && j != i && IsUnit(u, parts[j]);
      LeafOfUnit(x, u, parts[j]);
      LeafElsewhere(m, text, k, i, j, x);
    }
    AlternativeOfText(m, text, k, q);
    AlternativeHolds(q, MapString(m, text));
    NoneOfText(m, text, k, i, v);
  }

  lemma AlternativeHolds(q: Text, ws: Text)
    requires q in Top(ws, "OR", 0)
    ensures Read(ws, LeavesAnd(q))
  {
    hide Top, LeavesAnd;
    AllLeavesAnd(q, LeavesAnd(q));
  }

  lemma NoneOfText(m: Mapping, text: Text, k: nat, i: nat, v: set<Text>)
    requires k < |Clauses(text)| && i < |Licences(text, k)|
    requires forall x :: x in v ==> NotIn(m, text, k, i, x)
    ensures !TextHolds(m, text, v)
  {
    hide Split, SplitFrom, Render, TextHolds, Leaves;
    if TextHolds(m, text, v) {
      var k', i', x := TextHoldsBySome(m, text, v, k, i);
    }
  }

  lemma SeparateIsLevel(m: Mapping, text: Text, k: nat)
    requires Separate(m, text) && k < |Clauses(text)|
    ensures forall r :: r in RenderAll(m, Licences(text, k)) ==> Level(r) == 0
    ensures forall lic :: lic in Licences(text, k) ==> Level(Render(m, lic)) == 0
  {
    hide Split, SplitFrom, Render, Level, Leaves;
    RenderAllAt(m, Licences(text, k));
    forall lic | lic in Licences(text, k) ensures Level(Render(m, lic)) == 0 {
      var i: nat :| i < |Licences(text, k)| && Licences(text, k)[i] == lic;
      assert Level(Rendered(m, text, k, i)) == 0;
    }
    RenderAllElements(m, Licences(text, k));
  }

  lemma UnsafeHasOr(m: Mapping, clause: Text, parts: seq<Text>)
    requires !ClauseIsSafe(m, clause) && parts == RenderAll(m, Split(clause, "and"))
    requires forall lic :: lic in Split(clause, "and") ==> Level(Render(m, lic)) == 0
    ensures |parts| >= 2 && !(forall r :: r in parts ==> Free(r, "OR"))
  {
    hide SplitFrom, Render, Level, Free;
    RenderAllElements(m, Split(clause, "and"));
  }

  lemma AlternativeOfText(m: Mapping, text: Text, k: nat, q: Text)
    requires Separate(m, text) && k < |Clauses(text)|
    requires q in Top(MapClause(m, Clauses(text)[k]), "OR", 0)
    ensures q in Top(MapString(m, text), "OR", 0)
  {
    hide Split, SplitFrom, Render, Top, Join, Balance, Level, Separate;
    var clauses := Clauses(text);
    var parts := MapClauses(m, clauses);
    MapClausesElements(m, clauses);
    OperatorsAreLevel();
    forall c | c in clauses ensures Level(MapClause(m, c)) == 0 {
      var k' :| 0 <= k' < |clauses| && clauses[k'] == c;
      SeparateIsLevel(m, text, k');
      LevelJoin(RenderAll(m, Split(c, "and")), "AND");
    }
    TopOfJoin(parts, "OR");
    assert MapClause(m, clauses[k]) in parts && InSome(q, parts, "OR");
  }

  /** For a text of which no licence occurs twice: the translation means the same
      under every valuation exactly if every clause is safe, that is, no licence
      of a clause of several is translated to a text with an `OR` outside
      parentheses. */
  lemma MeaningIsKeptExactly(m: Mapping, text: Text)
    requires Separate(m, text)
    ensures (forall v :: Read(MapString(m, text), v) <==> TextHolds(m, text, v))
            <==> forall c :: c in Clauses(text) ==> ClauseIsSafe(m, c)
  {
    hide Split, SplitFrom, Render, Read, ClauseIsSafe, ClauseHolds, MapString, Separate;
    if forall c :: c in Clauses(text) ==> ClauseIsSafe(m, c) {
      forall v ensures Read(MapString(m, text), v) <==> TextHolds(m, text, v) {
        TranslationKeepsMeaning(m, text, v);
      }
    } else {
      var c :| c in Clauses(text) && !ClauseIsSafe(m, c);
      var k :| 0 <= k < |Clauses(text)| && Clauses(text)[k] == c;
      var v := UnsafeClauseIsMisread(m, text, k);
    }
  }

  // ------------------------------------------------------------- the smallest case

  lemma JoinOfTwo(a: Text, b: Text, op: string)
    ensures Join([a, b], op) == a + [op] + b
  {
    assert [a, b][1..] == [b];
  }

  lemma ReadOfThree(a: Text, b: Text, c: Text, v: set<Text>)
    requires Closed(a) && Closed(b) && Closed(c)
    ensures Read(Join([Join([a, b], "OR"), c], "AND"), v) <==> Read(a, v) || (Read(b, v) && Read(c, v))
    ensures Read(Join([a, b], "OR"), v) <==> Read(a, v) || Read(b, v)
  {
    hide Read, Level, Free, Balance;
    var rest := Join([b, c], "AND");
    assert Join([Join([a, b], "OR"), c], "AND") == Join([a, rest], "OR") by {
      JoinOfTwo(a, b, "OR");
      JoinOfTwo(b, c, "AND");
      JoinOfTwo(a, rest, "OR");
      JoinOfTwo(a + ["OR"] + b, c, "AND");
      assert a + ["OR"] + b + ["AND"] + c == a + ["OR"] + (b + ["AND"] + c);
    }
    OperatorsAreLevel();
    LevelJoin([b, c], "AND");
    ReadJoinOr([a, rest], v);
    ReadJoinOr([a, b], v);
    ReadJoinAnd([b, c], v);
    assert a in [a, rest] && rest in [a, rest] && a in [a, b] && b in [a, b];
    assert b in [b, c] && c in [b, c];
  }

  lemma OneClauseOfTwo(m: Mapping, clause: Text, first: Text, second: Text)
    requires Split(clause, "and") == [first, second]
    ensures Join(MapClauses(m, [clause]), "OR") == Join([Render(m, first), Render(m, second)], "AND")
  {
    hide Split, SplitFrom, Render;
    assert [first, second][1..] == [second] && [second][1..] == [] && [clause][1..] == [];
    assert RenderAll(m, [second]) == [Render(m, second)];
  }

  /** One clause of two licences, the first of which is translated to `a OR b`:
      it is misread exactly if `a` holds and the other licence does not. */
  lemma UnguardedOrIsMisread(m: Mapping, text: Text, a: Text, b: Text, v: set<Text>)
    requires |Clauses(text)| == 1 && |Licences(text, 0)| == 2
    requires Rendered(m, text, 0, 0) == Join([a, b], "OR")
    requires Closed(a) && Closed(b) && Closed(Rendered(m, text, 0, 1))
    ensures Read(MapString(m, text), v) == ClauseHolds(m, Clauses(text)[0], v)
            <==> !(Read(a, v) && !Read(Rendered(m, text, 0, 1), v))
  {
    hide Split, SplitFrom, Render, Read, Closed;
    var first, second := Rendered(m, text, 0, 0), Rendered(m, text, 0, 1);
    var lics := Licences(text, 0);
    assert Clauses(text) == [Clauses(text)[0]] && lics == [lics[0], lics[1]];
    OneClauseOfTwo(m, Clauses(text)[0], lics[0], lics[1]);
    assert MapString(m, text) == Join([first, second], "AND");
    ReadOfThree(a, b, second, v);
  }

  /** For example: `x and y`, with `x` mapped to `a OR b` and `y` to `c`, on a
      system that satisfies `a` only. */
  lemma MappingToOrIsMisread()
    ensures var m := Mapping(map[["x"] := ["a", "OR", "b"], ["y"] := ["c"]], map[], {});
            var text := ["x", "and", "y"];
            Read(MapString(m, text), {["a"]}) && !TextHolds(m, text, {["a"]})
  {
    SmallTexts();
    SplitsAtAnd("x", "y");
    MappedToOr(["x"], ["y"], ["a"], ["b"], ["c"], ["x", "and", "y"], {["a"]});
  }

  lemma MappedToOr(x: Text, y: Text, a: Text, b: Text, c: Text, text: Text, v: set<Text>)
    requires x != y && Split(text, "or") == [text] && Split(text, "and") == [x, y]
    requires Closed(a) && Closed(b) && Closed(c) && Read(a, v) && !Read(c, v)
    ensures var m := Mapping(map[x := Join([a, b], "OR"), y := c], map[], {});
            Read(MapString(m, text), v) && !TextHolds(m, text, v)
  {
    var m := Mapping(map[x := Join([a, b], "OR"), y := c], map[], {});
    assert Render(m, x) == Join([a, b], "OR") && Render(m, y) == c;
    hide Read, Render, Split, SplitFrom, Closed, MapString, Join;
    UnguardedOrIsMisread(m, text, a, b, v);
    assert y in Licences(text, 0);
  }

  lemma SplitsAtAnd(x: string, y: string)
    requires x != "and" && y != "and" && x != "or" && y != "or"
    ensures Split([x, "and", y], "or") == [[x, "and", y]]
    ensures Split([x, "and", y], "and") == [[x], [y]]
  {
    var text := [x, "and", y];
    assert [] + text == text;
    UnsplitWithout(text, "or", []);
    UnsplitWithout([y], "and", []);
    assert [] + [y] == [y] && [] + [x] == [x] && text[1..] == ["and", y] && ["and", y][1..] == [y];
    assert SplitFrom(["and", y], "and", [x]) == [[x]] + SplitFrom([y], "and", []);
    assert SplitFrom(text, "and", []) == SplitFrom(["and", y], "and", [x]);
  }

  lemma SmallTexts()
    ensures ["a", "OR", "b"] == Join([["a"], ["b"]], "OR")
    ensures Closed(["a"]) && Closed(["b"]) && Closed(["c"])
    ensures Read(["a"], {["a"]}) && !Read(["c"], {["a"]})
  {
    JoinOfTwo(["a"], ["b"], "OR");
    PlainWord("a");
    PlainWord("b");
    PlainWord("c");
    OperatorFreeIsOneLicence(["a"], {["a"]});
    OperatorFreeIsOneLicence(["c"], {["a"]});
  }

  lemma PlainWord(w: string)
    requires w != "" && '(' !in w && ')' !in w && w != "OR"
    ensures Closed([w]) && !Enclosed([w])
  {
    hide Top, Balance;
    PlainWordIsLevel(w);
    FreeWithout([w], "OR", 0);
    assert Level([w]) == Balance(w) + Level([]);
    assert w[0] in w;
  }
}
