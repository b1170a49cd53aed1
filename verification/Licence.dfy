/** Translation of Debian licence names to SPDX expressions. A text is the
    sequence of its words, split at every single space: `' or '` occurs in it
    where the word `or` stands neither first nor last. */
module Licence {
  import opened Lists

  type Text = seq<string>

  // ------------------------------------------------------------ str.split/join

  /** `s.split(' op ')`, with the words `cur` of the current part already read. */
  function SplitFrom(ws: Text, op: string, cur: Text): (parts: seq<Text>)
    ensures |parts| >= 1
    decreases |ws|
  {
    if ws == [] then [cur]
    else if ws[0] == op && cur != [] && |ws| > 1 then [cur] + SplitFrom(ws[1..], op, [])
    else SplitFrom(ws[1..], op, cur + [ws[0]])
  }

  function Split(ws: Text, op: string): (parts: seq<Text>)
    ensures |parts| >= 1
  {
    SplitFrom(ws, op, [])
  }

  /** `' op '.join(parts)` */
  function Join(parts: seq<Text>, op: string): Text {
    if parts == [] then [""]
    else if |parts| == 1 then parts[0]
    else parts[0] + [op] + Join(parts[1..], op)
  }

  lemma {:induction false} JoinSplitFrom(ws: Text, op: string, cur: Text)
    ensures Join(SplitFrom(ws, op, cur), op) == cur + ws
    decreases |ws|
  {
    if ws == [] {
      assert cur + ws == cur;
    } else if ws[0] == op && cur != [] && |ws| > 1 {
      JoinSplitFrom(ws[1..], op, []);
      var rest := SplitFrom(ws[1..], op, []);
      assert ([cur] + rest)[1..] == rest;
      assert ws == [op] + ws[1..] && [] + ws[1..] == ws[1..];
    } else {
      JoinSplitFrom(ws[1..], op, cur + [ws[0]]);
      assert cur + ws == cur + [ws[0]] + ws[1..];
    }
  }

  // ---------------------------------------------------------------- the mapping

  /** What is known for one package: its own mapping, the global one, and the
      SPDX identifiers. */
  datatype Mapping = Mapping(perPackage: map<Text, Text>, all: map<Text, Text>, spdx: set<Text>)

  function MapOne(m: Mapping, lic: Text): Option<Text> {
    if lic in m.perPackage then Some(m.perPackage[lic])
    else if lic in m.all then Some(m.all[lic])
    else if lic in m.spdx then Some(lic)
    else None
  }

  function Wrapped(open: string, ws: Text): Text {
    if ws == [] then [open + ")"]
    else if |ws| == 1 then [open + ws[0] + ")"]
    else [open + ws[0]] + ws[1..|ws| - 1] + [ws[|ws| - 1] + ")"]
  }

  const UNKNOWN := "UNKNOWN_MAPPING" + "("

  predicate IsUnknown(m: Mapping, lic: Text) {
    MapOne(m, lic) == None && MapOne(m, Split(lic, "with")[0]) == None
  }

  /** How one licence is rendered. */
  function Render(m: Mapping, lic: Text): Text {
    match MapOne(m, lic)
    case Some(mapped) => mapped
    case None =>
      var withSplit := Split(lic, "with");
      var name :=
        match MapOne(m, withSplit[0])
        case Some(mapped) => mapped
        case None => Wrapped(UNKNOWN, withSplit[0]);
      if |withSplit| == 2 then name + ["WITH"] + withSplit[1] else name
  }

  function RenderAll(m: Mapping, lics: seq<Text>): seq<Text> {
    if lics == [] then [] else [Render(m, lics[0])] + RenderAll(m, lics[1..])
  }

  function MapClause(m: Mapping, clause: Text): Text {
    Join(RenderAll(m, Split(clause, "and")), "AND")
  }

  function MapClauses(m: Mapping, clauses: seq<Text>): seq<Text> {
    if clauses == [] then [] else [MapClause(m, clauses[0])] + MapClauses(m, clauses[1..])
  }

  function MapString(m: Mapping, text: Text): Text {
    Join(MapClauses(m, Split(text, "or")), "OR")
  }

  /** The licences of a text, in order. */
  function Atoms(clauses: seq<Text>): seq<Text> {
    if clauses == [] then [] else Split(clauses[0], "and") + Atoms(clauses[1..])
  }

  /** The names for which there is no mapping. */
  function Unmapped(m: Mapping, lics: seq<Text>): seq<Text> {
    if lics == [] then []
    else (if IsUnknown(m, lics[0]) then [Split(lics[0], "with")[0]] else []) + Unmapped(m, lics[1..])
  }

  class Mapper {
    const mapping: Mapping
    var errors: seq<Text>

    constructor (mapping: Mapping)
      ensures this.mapping == mapping && errors == []
    {
      this.mapping := mapping;
      errors := [];
    }

    method MapOneWithException(lic: Text) returns (r: Text)
      modifies this
      ensures r == Render(mapping, lic)
      ensures errors == old(errors) + Unmapped(mapping, [lic])
    {
      var mapped := MapOne(mapping, lic);
      if mapped.Some? {
        return mapped.value;
      }
      var withSplit := Split(lic, "with");
      mapped := MapOne(mapping, withSplit[0]);
      if mapped == None {
        errors := errors + [withSplit[0]];
        if |withSplit| == 2 {
          return Wrapped(UNKNOWN, withSplit[0]) + ["WITH"] + withSplit[1];
        }
        return Wrapped(UNKNOWN, withSplit[0]);
      } else if |withSplit| == 2 {
        return mapped.value + ["WITH"] + withSplit[1];
      }
      return mapped.value;
    }

    /** One clause: its licences, joined by `and`. */
    method MapAnds(clause: Text) returns (r: Text)
      modifies this
      ensures r == MapClause(mapping, clause)
      ensures errors == old(errors) + Unmapped(mapping, Split(clause, "and"))
    {
      hide Render, Split, SplitFrom, IsUnknown;
      var oneAnds := Split(clause, "and");
      var ands: seq<Text> := [];
      for j := 0 to |oneAnds|
        invariant ands == RenderAll(mapping, oneAnds[..j])
        invariant errors == old(errors) + Unmapped(mapping, oneAnds[..j])
      {
        var lic := MapOneWithException(oneAnds[j]);
        Snoc(mapping, oneAnds[..j], oneAnds[j]);
        assert oneAnds[..j + 1] == oneAnds[..j] + [oneAnds[j]];
        ands := ands + [lic];
      }
      assert oneAnds[..|oneAnds|] == oneAnds;
      r := Join(ands, "AND");
    }

    /** The errors appended are the licences without a mapping, in order. */
    method MapLicenseString(text: Text) returns (r: Text)
      modifies this
      ensures r == MapString(mapping, text)
      ensures errors == old(errors) + Unmapped(mapping, Atoms(Split(text, "or")))
    {
      hide Render, Split, SplitFrom, IsUnknown, MapClause;
      var oneOrs := Split(text, "or");
      var ors: seq<Text> := [];
      for i := 0 to |oneOrs|
        invariant ors == MapClauses(mapping, oneOrs[..i])
        invariant errors == old(errors) + Unmapped(mapping, Atoms(oneOrs[..i]))
      {
        var clause := MapAnds(oneOrs[i]);
        SnocClause(mapping, oneOrs[..i], oneOrs[i]);
        assert oneOrs[..i + 1] == oneOrs[..i] + [oneOrs[i]];
        ors := ors + [clause];
      }
      assert oneOrs[..|oneOrs|] == oneOrs;
      r := Join(ors, "OR");
    }
  }

  lemma {:induction false} Snoc(m: Mapping, lics: seq<Text>, lic: Text)
    ensures RenderAll(m, lics + [lic]) == RenderAll(m, lics) + [Render(m, lic)]
    ensures Unmapped(m, lics + [lic]) == Unmapped(m, lics) + Unmapped(m, [lic])
  {
    hide Render, IsUnknown;
    if lics == [] {
      assert lics + [lic] == [lic];
    } else {
      Snoc(m, lics[1..], lic);
      assert (lics + [lic])[1..] == lics[1..] + [lic];
    }
  }

  lemma {:induction false} UnmappedAppend(m: Mapping, a: seq<Text>, b: seq<Text>)
    ensures Unmapped(m, a + b) == Unmapped(m, a) + Unmapped(m, b)
  {
    hide IsUnknown;
    if a == [] {
      assert a + b == b;
    } else {
      UnmappedAppend(m, a[1..], b);
      assert (a + b)[1..] == a[1..] + b;
    }
  }

  lemma {:induction false} SnocClause(m: Mapping, clauses: seq<Text>, clause: Text)
    ensures MapClauses(m, clauses + [clause]) == MapClauses(m, clauses) + [MapClause(m, clause)]
    ensures Atoms(clauses + [clause]) == Atoms(clauses) + Split(clause, "and")
    ensures Unmapped(m, Atoms(clauses + [clause])) == Unmapped(m, Atoms(clauses)) + Unmapped(m, Split(clause, "and"))
  {
    hide MapClause, Split;
    UnmappedAppend(m, Atoms(clauses), Split(clause, "and"));
    if clauses == [] {
      assert clauses + [clause] == [clause];
    } else {
      SnocClause(m, clauses[1..], clause);
      assert (clauses + [clause])[1..] == clauses[1..] + [clause];
    }
  }

  // --------------------------------------------------------------- license_string

  /** `' OR '` occurs in the text. */
  predicate HasInnerOr(ws: Text) {
    exists k :: 0 < k < |ws| - 1 && ws[k] == "OR"
  }

  function Entry(ws: Text): Text {
    if HasInnerOr(ws) then Wrapped("(", ws) else ws
  }

  function Entries(licenses: seq<Text>): seq<Text> {
    if licenses == [] then [] else [Entry(licenses[0])] + Entries(licenses[1..])
  }

  lemma {:induction false} EntriesSnoc(licenses: seq<Text>, ws: Text)
    ensures Entries(licenses + [ws]) == Entries(licenses) + [Entry(ws)]
  {
    hide Entry;
    if licenses == [] {
      assert licenses + [ws] == [ws];
    } else {
      EntriesSnoc(licenses[1..], ws);
      assert (licenses + [ws])[1..] == licenses[1..] + [ws];
    }
  }

  /** The licence text of a package from its translated licences, if it has any. */
  method LicenseString(licenses: Option<seq<Text>>) returns (r: Text)
    ensures licenses == None ==> r == ["NOASSERTION"]
    ensures licenses.Some? ==> r == Join(Entries(licenses.value), "AND")
  {
    if licenses == None {
      return ["NOASSERTION"];
    }
    var all := licenses.value;
    var list: seq<Text> := [];
    for i := 0 to |all|
      invariant list == Entries(all[..i])
    {
      EntriesSnoc(all[..i], all[i]);
      assert all[..i + 1] == all[..i] + [all[i]];
      if HasInnerOr(all[i]) {
        list := list + [Wrapped("(", all[i])];
      } else {
        list := list + [all[i]];
      }
    }
    assert all[..|all|] == all;
    r := Join(list, "AND");
  }

  // -------------------------------------------------------------------- exceptions

  /** `' op '` does not occur in the text. */
  predicate NoneInside(ws: Text, op: string) {
    forall k :: 0 < k < |ws| - 1 ==> ws[k] != op
  }

  lemma {:induction false} UnsplitWithout(ws: Text, op: string, cur: Text)
    requires NoneInside(cur + ws, op)
    ensures SplitFrom(ws, op, cur) == [cur + ws]
    decreases |ws|
  {
    if ws == [] {
      assert cur + ws == cur;
    } else {
      assert cur + [ws[0]] + ws[1..] == cur + ws;
      assert (cur + ws)[|cur|] == ws[0];
      UnsplitWithout(ws[1..], op, cur + [ws[0]]);
    }
  }

  lemma {:induction false} FirstPartHasNone(ws: Text, op: string, cur: Text)
    requires NoneInside(cur + [""], op)
    ensures NoneInside(SplitFrom(ws, op, cur)[0], op)
    decreases |ws|
  {
    if ws == [] || (ws[0] == op && cur != [] && |ws| > 1) {
      assert forall k :: 0 < k < |cur| ==> (cur + [""])[k] == cur[k];
    } else if |ws| == 1 {
      assert SplitFrom(ws[1..], op, cur + [ws[0]]) == [cur + [ws[0]]];
      assert forall k :: 0 < k < |cur| ==> (cur + [""])[k] == (cur + [ws[0]])[k];
    } else {
      var longer := cur + [ws[0]];
      assert forall k :: 0 < k < |cur| ==> (cur + [""])[k] == (longer + [""])[k];
      FirstPartHasNone(ws[1..], op, longer);
    }
  }

  /** An exception is kept exactly when the licence names one; with more than
      one `with` every exception is dropped. */
  lemma ExceptionIsKept(m: Mapping, lic: Text)
    requires MapOne(m, lic) == None
    ensures var parts := Split(lic, "with");
            Render(m, lic) == Render(m, parts[0]) + if |parts| == 2 then ["WITH"] + parts[1] else []
  {
    hide SplitFrom;
    FirstPartHasNone(lic, "with", []);
    UnsplitWithout(Split(lic, "with")[0], "with", []);
    assert [] + Split(lic, "with")[0] == Split(lic, "with")[0];
    if |Split(lic, "with")| != 2 {
      assert Render(m, lic) == Render(m, lic) + [];
    }
  }

  predicate Marked(ws: Text) {
    ws != [] && UNKNOWN <= ws[0]
  }

  /** If no mapping yields a marked text, the marked licences are those for which
      an error was reported. */
  lemma MarkedIsUnknown(m: Mapping, lic: Text)
    requires forall name :: MapOne(m, name).Some? ==> !Marked(MapOne(m, name).value)
    ensures Marked(Render(m, lic)) <==> Unmapped(m, [lic]) != []
  {
    hide Split, SplitFrom, MapOne;
  }

  // -------------------------------------------------------- what a rendering says

  /** The one table that the two mappings and the identifiers come to: a package's
      own mapping comes before the global one, and both before the identifiers. */
  function Flat(m: Mapping): map<Text, Text> {
    (map id | id in m.spdx :: id) + m.all + m.perPackage
  }

  lemma MapOneIsFlat(m: Mapping, lic: Text)
    ensures MapOne(m, lic) == if lic in Flat(m) then Some(Flat(m)[lic]) else None
  {
  }

  /** All mappings with the same table translate alike and report the same errors. */
  lemma {:induction false} SameTableSameText(m: Mapping, n: Mapping, text: Text)
    requires Flat(m) == Flat(n)
    ensures MapString(m, text) == MapString(n, text)
    ensures forall lics :: Unmapped(m, lics) == Unmapped(n, lics)
  {
    hide Split, SplitFrom, Flat, Wrapped, Join;
    forall lic ensures MapOne(m, lic) == MapOne(n, lic) {
      MapOneIsFlat(m, lic);
      MapOneIsFlat(n, lic);
    }
    hide MapOne;
    forall lic ensures Render(m, lic) == Render(n, lic) && IsUnknown(m, lic) == IsUnknown(n, lic) {
    }
    hide Render, IsUnknown;
    forall clause ensures MapClause(m, clause) == MapClause(n, clause) {
      SameRenderAll(m, n, Split(clause, "and"));
    }
    hide MapClause;
    SameClauses(m, n, Split(text, "or"));
    forall lics ensures Unmapped(m, lics) == Unmapped(n, lics) {
      SameUnmapped(m, n, lics);
    }
  }

  lemma {:induction false} SameRenderAll(m: Mapping, n: Mapping, lics: seq<Text>)
    requires forall lic :: Render(m, lic) == Render(n, lic)
    ensures RenderAll(m, lics) == RenderAll(n, lics)
  {
    hide Render;
    if lics != [] {
      SameRenderAll(m, n, lics[1..]);
    }
  }

  lemma {:induction false} SameClauses(m: Mapping, n: Mapping, clauses: seq<Text>)
    requires forall clause :: MapClause(m, clause) == MapClause(n, clause)
    ensures MapClauses(m, clauses) == MapClauses(n, clauses)
  {
    hide MapClause;
    if clauses != [] {
      SameClauses(m, n, clauses[1..]);
    }
  }

  lemma {:induction false} SameUnmapped(m: Mapping, n: Mapping, lics: seq<Text>)
    requires forall lic :: IsUnknown(m, lic) == IsUnknown(n, lic)
    ensures Unmapped(m, lics) == Unmapped(n, lics)
  {
    hide IsUnknown, Split;
    if lics != [] {
      SameUnmapped(m, n, lics[1..]);
    }
  }

  /** The characters of a text. */
  function Chars(ws: Text): string {
    if ws == [] then "" else if |ws| == 1 then ws[0] else ws[0] + " " + Chars(ws[1..])
  }

  lemma {:induction false} CharsClosed(ws: Text)
    requires ws != []
    ensures Chars(ws[..|ws| - 1] + [ws[|ws| - 1] + ")"]) == Chars(ws) + ")"
  {
    var r := ws[..|ws| - 1] + [ws[|ws| - 1] + ")"];
    if |ws| > 1 {
      CharsClosed(ws[1..]);
      assert r[1..] == ws[1..][..|ws[1..]| - 1] + [ws[1..][|ws[1..]| - 1] + ")"];
    }
  }

  lemma CharsFirst(w: string, ws: Text)
    requires ws != []
    ensures Chars([w] + ws) == w + " " + Chars(ws)
  {
    assert ([w] + ws)[1..] == ws;
  }

  /** Wrapping puts the opening in front of a text and a parenthesis behind it. */
  lemma WrappedChars(open: string, ws: Text)
    requires ws != []
    ensures Chars(Wrapped(open, ws)) == open + Chars(ws) + ")"
  {
    if |ws| > 1 {
      hide Chars;
      var tail := ws[1..];
      var closed := tail[..|tail| - 1] + [tail[|tail| - 1] + ")"];
      CharsClosed(tail);
      assert tail[..|tail| - 1] == ws[1..|ws| - 1];
      assert Wrapped(open, ws) == [open + ws[0]] + closed && ws == [ws[0]] + tail;
      CharsFirst(open + ws[0], closed);
      CharsFirst(ws[0], tail);
    }
  }

  /** A licence in the table is rendered as the table says; another one by the name in
      front of its first `with`, mapped or marked as unknown. */
  lemma RenderExactly(m: Mapping, lic: Text)
    requires lic != []
    ensures var name := Split(lic, "with")[0];
            && (lic in Flat(m) ==> Render(m, lic) == Flat(m)[lic])
            && (lic !in Flat(m) && NoneInside(lic, "with") ==>
                  Chars(Render(m, lic)) == "UNKNOWN_MAPPING(" + Chars(lic) + ")")
            && (lic !in Flat(m) && |Split(lic, "with")| == 2 && name in Flat(m) ==>
                  Render(m, lic) == Flat(m)[name] + ["WITH"] + Split(lic, "with")[1])
  {
    hide SplitFrom, Flat, Wrapped;
    MapOneIsFlat(m, lic);
    MapOneIsFlat(m, Split(lic, "with")[0]);
    if NoneInside(lic, "with") {
      UnsplitWithout(lic, "with", []);
      assert [] + lic == lic;
      WrappedChars(UNKNOWN, lic);
    }
  }

  /** No part has the operator inside, so that nothing is left to split. */
  lemma {:induction false} PartsHaveNone(ws: Text, op: string, cur: Text)
    requires NoneInside(cur + [""], op)
    ensures forall p :: p in SplitFrom(ws, op, cur) ==> NoneInside(p, op)
    decreases |ws|
  {
    if ws == [] {
      assert forall k :: 0 < k < |cur| ==> (cur + [""])[k] == cur[k];
    } else if ws[0] == op && cur != [] && |ws| > 1 {
      assert forall k :: 0 < k < |cur| ==> (cur + [""])[k] == cur[k];
      PartsHaveNone(ws[1..], op, []);
    } else if |ws| == 1 {
      assert SplitFrom(ws[1..], op, cur + [ws[0]]) == [cur + [ws[0]]];
      assert forall k :: 0 < k < |cur| ==> (cur + [""])[k] == (cur + [ws[0]])[k];
    } else {
      var longer := cur + [ws[0]];
      assert forall k :: 0 < k < |cur| ==> (cur + [""])[k] == (longer + [""])[k];
      PartsHaveNone(ws[1..], op, longer);
    }
  }

  /** Splitting loses nothing and leaves nothing to split. */
  lemma SplitExactly(ws: Text, op: string)
    ensures Join(Split(ws, op), op) == ws
    ensures forall p :: p in Split(ws, op) ==> NoneInside(p, op)
  {
    JoinSplitFrom(ws, op, []);
    PartsHaveNone(ws, op, []);
    assert [] + ws == ws;
  }

  /** Parentheses are put exactly around the entries with an ` OR ` in them. */
  lemma EntryExactly(ws: Text)
    ensures Chars(Entry(ws)) == if exists k :: 0 < k < |ws| - 1 && ws[k] == "OR" then "(" + Chars(ws) + ")"
                                else Chars(ws)
  {
    if HasInnerOr(ws) {
      WrappedChars("(", ws);
    }
  }
}
