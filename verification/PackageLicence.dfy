/** From the Debian licence texts of a package to its licence text: what
    `map_lic` and `license_string` do together. */
module PackageLicence {
  import opened Licence
  import opened LicenceGrouping
  import opened LicenceMeaning
  import opened Lists

  // --------------------------------------------------- translations are well-formed

  lemma {:induction false} PlainWordNested(w: string, d: int)
    requires '(' !in w && ')' !in w && d >= 0
    ensures WordNested(w, d) && Balance(w) == 0
  {
    if w != "" {
      PlainWordNested(w[1..], d);
    }
  }

  lemma {:induction false} NestedAppend(a: Text, b: Text, d: int)
    requires Nested(a, d) && Nested(b, 0)
    ensures Nested(a + b, d)
  {
    hide WordNested, Balance;
    if a == [] {
      assert a + b == b;
    } else {
      assert (a + b)[1..] == a[1..] + b;
      NestedAppend(a[1..], b, d + Balance(a[0]));
    }
  }

  lemma {:induction false} PlainIsNested(ws: Text)
    requires Plain(ws)
    ensures Nested(ws, 0)
  {
    if ws != [] {
      PlainWordNested(ws[0], 0);
      PlainIsNested(ws[1..]);
    }
  }

  lemma {:induction false} WordNestedAppend(a: string, b: string, d: int)
    requires WordNested(a, d) && WordNested(b, d + Balance(a))
    ensures WordNested(a + b, d)
  {
    if a == "" {
      assert a + b == b;
    } else {
      assert (a + b)[1..] == a[1..] + b;
      WordNestedAppend(a[1..], b, d + CharBalance(a[0]));
    }
  }

  lemma ClosingWord(w: string)
    requires '(' !in w && ')' !in w
    ensures WordNested(w + ")", 1) && Balance(w + ")") == -1
  {
    PlainWordNested(w, 1);
    BalanceAppend(w, ")");
    assert WordNested(")", 1) && Balance(")") == -1;
    WordNestedAppend(w, ")", 1);
  }

  lemma {:induction false} PlainThenClosed(ws: Text)
    requires ws != [] && Plain(ws)
    ensures Nested(ws[..|ws| - 1] + [ws[|ws| - 1] + ")"], 1)
  {
    hide WordNested, Balance;
    var r := ws[..|ws| - 1] + [ws[|ws| - 1] + ")"];
    if |ws| == 1 {
      ClosingWord(ws[0]);
      assert r == [ws[0] + ")"] && r[1..] == [];
    } else {
      PlainWordNested(ws[0], 1);
      assert forall w :: w in ws[1..] ==> w in ws;
      PlainThenClosed(ws[1..]);
      assert r[1..] == ws[1..][..|ws[1..]| - 1] + [ws[1..][|ws[1..]| - 1] + ")"];
    }
  }

  lemma WrappedIsNested(name: string, ws: Text)
    requires ws != [] && Plain(ws) && '(' !in name && ')' !in name
    ensures Nested(Wrapped(name + "(", ws), 0)
  {
    hide WordNested, Balance;
    var open := name + "(";
    OpeningWord(name);
    PlainWordNested(ws[0], 1);
    assert 0 + Balance(open) == 1 && WordNested(ws[0], 1);
    WordNestedAppend(open, ws[0], 0);
    BalanceAppend(open, ws[0]);
    if |ws| == 1 {
      assert WordNested(")", 1) && Balance(")") == -1 by { ClosingWord(""); assert "" + ")" == ")"; }
      WordNestedAppend(open + ws[0], ")", 0);
      BalanceAppend(open + ws[0], ")");
      assert Wrapped(open, ws)[1..] == [];
    } else {
      assert forall w :: w in ws[1..] ==> w in ws;
      PlainThenClosed(ws[1..]);
      var tail := ws[1..][..|ws[1..]| - 1] + [ws[1..][|ws[1..]| - 1] + ")"];
      assert ws[1..|ws| - 1] == ws[1..][..|ws[1..]| - 1];
      assert Wrapped(open, ws) == [open + ws[0]] + tail;
    }
  }

  lemma OpeningWord(name: string)
    requires '(' !in name && ')' !in name
    ensures WordNested(name + "(", 0) && Balance(name + "(") == 1
  {
    PlainWordNested(name, 0);
    BalanceAppend(name, "(");
    assert WordNested("(", 0) && Balance("(") == 1;
    WordNestedAppend(name, "(", 0);
  }

  lemma WellFormedJoined(a: Text, x: string, b: Text)
    requires WellFormed(a) && WellFormed(b) && '(' !in x && ')' !in x
    ensures WellFormed(a + [x] + b)
  {
    hide WordNested, Balance;
    PlainWordNested(x, 0);
    assert Nested([x], 0) by { assert [x][1..] == []; }
    NestedAppend(a, [x], 0);
    NestedAppend(a + [x], b, 0);
  }

  lemma {:induction false} WellFormedJoin(parts: seq<Text>, x: string)
    requires parts != [] && (forall p :: p in parts ==> WellFormed(p)) && '(' !in x && ')' !in x
    ensures WellFormed(Join(parts, x))
  {
    hide WellFormed;
    if |parts| > 1 {
      WellFormedJoin(parts[1..], x);
      WellFormedJoined(parts[0], x, Join(parts[1..], x));
    }
  }

  ghost predicate MappingIsWellFormed(m: Mapping) {
    forall lic :: MapOne(m, lic).Some? ==> WellFormed(MapOne(m, lic).value) && Free(MapOne(m, lic).value, "OR")
  }

  lemma PlainIsWellFormed(ws: Text)
    requires ws != [] && Plain(ws)
    ensures WellFormed(ws)
  {
    PlainIsNested(ws);
    hide Nested;
    assert ws[0] in ws && ws[|ws| - 1] in ws;
  }

  lemma UnknownIsWellFormed(ws: Text)
    requires ws != [] && Plain(ws)
    ensures WellFormed(Wrapped(UNKNOWN, ws))
  {
    hide Nested;
    WrappedIsNested("UNKNOWN_MAPPING", ws);
    var r := Wrapped(UNKNOWN, ws);
    assert |r[0]| > 2;
    assert r[|r| - 1][|r[|r| - 1]| - 1] == ')';
  }

  lemma RenderIsWellFormed(m: Mapping, lic: Text)
    requires MappingIsWellFormed(m) && lic != [] && Plain(lic)
    ensures WellFormed(Render(m, lic))
  {
    hide Split, SplitFrom, WellFormed, Wrapped, Free;
    if MapOne(m, lic) == None {
      var parts := Split(lic, "with");
      PlainPart(lic, "with", parts[0]);
      UnknownIsWellFormed(parts[0]);
      if |parts| == 2 {
        PlainPart(lic, "with", parts[1]);
        PlainIsWellFormed(parts[1]);
        var name := if MapOne(m, parts[0]).Some? then MapOne(m, parts[0]).value else Wrapped(UNKNOWN, parts[0]);
        WellFormedJoined(name, "WITH", parts[1]);
        assert Render(m, lic) == name + ["WITH"] + parts[1];
      }
    }
  }

  /** The translation of a plain text is fit for the licence text of a package. */
  lemma TranslationIsWellFormed(m: Mapping, text: Text)
    requires MappingIsWellFormed(m) && text != [] && Plain(text)
    ensures WellFormed(MapString(m, text))
  {
    hide Split, SplitFrom, Render, WellFormed, Plain, MappingIsWellFormed, Join;
    var clauses := Split(text, "or");
    forall c | c in clauses ensures WellFormed(MapClause(m, c)) {
      PlainPart(text, "or", c);
      var lics := Split(c, "and");
      forall lic | lic in lics ensures WellFormed(Render(m, lic)) {
        PlainPart(c, "and", lic);
        RenderIsWellFormed(m, lic);
      }
      RenderAllElements(m, lics);
      WellFormedJoin(RenderAll(m, lics), "AND");
    }
    MapClausesElements(m, clauses);
    WellFormedJoin(MapClauses(m, clauses), "OR");
  }

  lemma WellFormedMappingIsClosed(m: Mapping)
    requires MappingIsWellFormed(m)
    ensures MappingIsClosed(m)
  {
    hide Free;
    forall lic | MapOne(m, lic).Some? ensures Closed(MapOne(m, lic).value) {
      NestedIsLevel(MapOne(m, lic).value, 0);
    }
  }

  // -------------------------------------------------------------- the whole package

  /** `map_lic` without overrides: `None` stands for an empty licence. */
  function MapTexts(m: Mapping, texts: seq<Option<Text>>): seq<Text> {
    if texts == [] then []
    else MapTexts(m, Front(texts))
         + [match Last(texts) case None => ["Empty", "license"] case Some(text) => MapString(m, text)]
  }

  method MapLic(mapper: Mapper, texts: seq<Option<Text>>) returns (spdx: seq<Text>)
    modifies mapper
    ensures spdx == MapTexts(mapper.mapping, texts)
  {
    hide MapString;
    spdx := [];
    assert texts[..0] == [];
    for i := 0 to |texts|
      invariant spdx == MapTexts(mapper.mapping, texts[..i])
    {
      assert Front(texts[..i + 1]) == texts[..i] && Last(texts[..i + 1]) == texts[i];
      match texts[i] {
        case None =>
          spdx := spdx + [["Empty", "license"]];
        case Some(text) =>
          var mapped := mapper.MapLicenseString(text);
          spdx := spdx + [mapped];
      }
    }
    assert texts[..|texts|] == texts;
  }

  /** What a licence text asks for; an empty licence is one of its own. */
  predicate Holds(m: Mapping, text: Option<Text>, v: set<Text>) {
    match text
    case None => ["Empty", "license"] in v
    case Some(t) => TextHolds(m, t, v)
  }

  predicate Fine(text: Option<Text>) {
    text.Some? ==> text.value != [] && Plain(text.value)
  }

  lemma {:induction false} MapTextsElements(m: Mapping, texts: seq<Option<Text>>)
    ensures |MapTexts(m, texts)| == |texts|
    ensures forall i :: 0 <= i < |texts| ==>
              MapTexts(m, texts)[i]
              == match texts[i] case None => ["Empty", "license"] case Some(text) => MapString(m, text)
  {
    hide MapString;
    if texts != [] {
      MapTextsElements(m, Front(texts));
    }
  }

  lemma OneText(m: Mapping, text: Option<Text>, v: set<Text>)
    requires MappingIsWellFormed(m) && Fine(text)
    ensures var spdx := match text case None => ["Empty", "license"] case Some(t) => MapString(m, t);
            WellFormed(spdx) && (Read(spdx, v) <==> Holds(m, text, v))
  {
    match text
    case None =>
      EmptyLicence(v);
    case Some(t) =>
      hide MapString, WellFormed, Read, MappingIsWellFormed, Plain, ClauseHolds, Split;
      TranslationIsWellFormed(m, t);
      WellFormedMappingIsClosed(m);
      PlainTextKeepsMeaning(m, t, v);
  }

  lemma EmptyLicence(v: set<Text>)
    ensures var ws := ["Empty", "license"]; WellFormed(ws) && (Read(ws, v) <==> ws in v)
  {
    var ws := ["Empty", "license"];
    assert Plain(ws) && "AND" !in ws;
    assert ws[0][0] == 'E';
    PlainIsWellFormed(ws);
    OperatorFreeIsOneLicence(ws, v);
    hide Read, WellFormed, Plain, Enclosed;
  }

  /** The licence text of a package, translated from any number of plain texts,
      holds exactly if every one of them does. */
  lemma PackageLicenceMeansItsTexts(m: Mapping, texts: seq<Option<Text>>, v: set<Text>)
    requires MappingIsWellFormed(m) && texts != [] && forall t :: t in texts ==> Fine(t)
    ensures Read(Join(Entries(MapTexts(m, texts)), "AND"), v) <==> forall t :: t in texts ==> Holds(m, t, v)
  {
    hide MapString, WellFormed, Read, MappingIsWellFormed, Fine, Holds, Join, Entries;
    var spdx := MapTexts(m, texts);
    MapTextsElements(m, texts);
    forall i | 0 <= i < |texts| ensures WellFormed(spdx[i]) && (Read(spdx[i], v) <==> Holds(m, texts[i], v)) {
      assert texts[i] in texts;
      OneText(m, texts[i], v);
    }
    LicenseStringIsConjunction(spdx, v);
    if forall ws :: ws in spdx ==> Read(ws, v) {
      forall t | t in texts ensures Holds(m, t, v) {
        var i :| 0 <= i < |texts| && texts[i] == t;
        assert spdx[i] in spdx;
      }
    }
    if forall t :: t in texts ==> Holds(m, t, v) {
      forall ws | ws in spdx ensures Read(ws, v) {
        var i :| 0 <= i < |spdx| && spdx[i] == ws;
        assert texts[i] in texts;
      }
    }
  }
}
