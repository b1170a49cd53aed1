/** What an SPDX licence expression means, and that translating a Debian
    licence text keeps the meaning. */
module LicenceMeaning {
  import opened Licence
  import opened Lists

  // -------------------------------------------------- reading an SPDX expression

  function CharBalance(c: char): int {
    if c == '(' then 1 else if c == ')' then -1 else 0
  }

  /** Opening minus closing parentheses of a word. */
  function Balance(w: string): int {
    if w == "" then 0 else CharBalance(w[0]) + Balance(w[1..])
  }

  function Level(ws: Text): int {
    if ws == [] then 0 else Balance(ws[0]) + Level(ws[1..])
  }

  function Size(ws: Text): nat {
    if ws == [] then 0 else |ws[0]| + 1 + Size(ws[1..])
  }

  /** The parts of a text between the operators `op` outside all parentheses. */
  function Top(ws: Text, op: string, d: int): (parts: seq<Text>)
    ensures |parts| >= 1
    ensures forall p :: p in parts ==> Size(p) <= Size(ws)
  {
    if ws == [] then [[]]
    else
      var rest := Top(ws[1..], op, d + Balance(ws[0]));
      if ws[0] == op && d == 0 then [[]] + rest
      else
        assert ([ws[0]] + rest[0])[1..] == rest[0];
        [[ws[0]] + rest[0]] + rest[1..]
  }

  /** From depth `d` the word never closes more parentheses than are open. */
  predicate WordNested(w: string, d: int) {
    d >= 0 && (w == "" || WordNested(w[1..], d + CharBalance(w[0])))
  }

  predicate Nested(ws: Text, d: int) {
    if ws == [] then d == 0 else WordNested(ws[0], d) && Nested(ws[1..], d + Balance(ws[0]))
  }

  predicate HasOuterSigns(ws: Text) {
    && ws != []
    && ws[0] != "" && ws[0][0] == '('
    && ws[|ws| - 1] != "" && ws[|ws| - 1][|ws[|ws| - 1]| - 1] == ')'
    && (|ws| == 1 ==> |ws[0]| >= 2)
  }

  /** The text without its first and last character. */
  function Strip(ws: Text): (r: Text)
    requires HasOuterSigns(ws)
  {
    var last := ws[|ws| - 1];
    if |ws| == 1 then [last[1..|last| - 1]]
    else [ws[0][1..]] + ws[1..|ws| - 1] + [last[..|last| - 1]]
  }

  predicate Enclosed(ws: Text) {
    HasOuterSigns(ws) && Nested(Strip(ws), 0)
  }

  lemma {:induction false} SizeAppend(a: Text, b: Text)
    ensures Size(a + b) == Size(a) + Size(b)
  {
    if a == [] {
      assert a + b == b;
    } else {
      SizeAppend(a[1..], b);
      assert (a + b)[1..] == a[1..] + b;
    }
  }

  lemma StripIsSmaller(ws: Text)
    requires HasOuterSigns(ws)
    ensures Size(Strip(ws)) < Size(ws)
  {
    var n := |ws|;
    var last := ws[n - 1];
    if n == 1 {
      assert ws == [last];
    } else {
      var mid := ws[1..n - 1];
      assert ws == [ws[0]] + mid + [last];
      SizeAppend([ws[0]] + mid, [last]);
      SizeAppend([ws[0]], mid);
      SizeAppend([ws[0][1..]] + mid, [last[..|last| - 1]]);
      SizeAppend([ws[0][1..]], mid);
    }
  }

  /** Whether an expression holds when exactly the licences `v` do: `OR` binds
      weakest, then `AND`; `WITH` belongs to the licence. */
  predicate Read(ws: Text, v: set<Text>)
    decreases Size(ws), 2
  {
    exists p :: p in Top(ws, "OR", 0) && ReadAnd(p, v)
  }

  predicate ReadAnd(ws: Text, v: set<Text>)
    decreases Size(ws), 1
  {
    forall p :: p in Top(ws, "AND", 0) ==> ReadUnit(p, v)
  }

  predicate ReadUnit(ws: Text, v: set<Text>)
    decreases Size(ws), 0
  {
    if Enclosed(ws) then
      StripIsSmaller(ws);
      Read(Strip(ws), v)
    else ws in v
  }

  // -------------------------------------------------- parts of a composed text

  function Glue(s: seq<Text>, t: seq<Text>): seq<Text>
    requires |s| >= 1 && |t| >= 1
  {
    s[..|s| - 1] + [s[|s| - 1] + t[0]] + t[1..]
  }

  lemma {:induction false} LevelAppend(a: Text, b: Text)
    ensures Level(a + b) == Level(a) + Level(b)
  {
    if a == [] {
      assert a + b == b;
    } else {
      LevelAppend(a[1..], b);
      assert (a + b)[1..] == a[1..] + b;
    }
  }

  lemma GlueNothing(t: seq<Text>)
    requires |t| >= 1
    ensures Glue([[]], t) == t
  {
    assert [] + t[0] == t[0];
    assert Glue([[]], t) == [t[0]] + t[1..];
  }

  lemma GlueWord(w: string, s: seq<Text>, t: seq<Text>)
    requires |s| >= 1 && |t| >= 1
    ensures var g := Glue(s, t);
            Glue([[w] + s[0]] + s[1..], t) == [[w] + g[0]] + g[1..]
  {
    var g := Glue(s, t);
    if |s| == 1 {
      assert [w] + s[0] + t[0] == [w] + (s[0] + t[0]);
    }
  }

  lemma TopOfWord(w: string, ws: Text, op: string, d: int)
    ensures var rest := Top(ws, op, d + Balance(w));
            Top([w] + ws, op, d) == if w == op && d == 0 then [[]] + rest else [[w] + rest[0]] + rest[1..]
  {
    assert ([w] + ws)[1..] == ws;
  }

  lemma {:induction false} TopAppend(a: Text, b: Text, op: string, d: int)
    ensures Top(a + b, op, d) == Glue(Top(a, op, d), Top(b, op, d + Level(a)))
  {
    hide Top, Balance;
    if a == [] {
      assert Top([], op, d) == [[]] by { TopOfNothing(op, d); }
      GlueNothing(Top(b, op, d));
      assert a + b == b;
    } else {
      var w := a[0];
      assert a == [w] + a[1..] && a + b == [w] + (a[1..] + b);
      TopAppend(a[1..], b, op, d + Balance(w));
      TopOfWord(w, a[1..], op, d);
      TopOfWord(w, a[1..] + b, op, d);
      var s := Top(a[1..], op, d + Balance(w));
      var t := Top(b, op, d + Level(a));
      if w == op && d == 0 {
        GlueAfter(s, t);
      } else {
        GlueWord(w, s, t);
      }
    }
  }

  lemma GlueAfter(s: seq<Text>, t: seq<Text>)
    requires |s| >= 1 && |t| >= 1
    ensures Glue([[]] + s, t) == [[]] + Glue(s, t)
  {
  }

  lemma TopOfNothing(op: string, d: int)
    ensures Top([], op, d) == [[]]
  {
  }

  predicate Free(ws: Text, op: string) {
    Top(ws, op, 0) == [ws]
  }

  lemma TopJoined(a: Text, op: string, b: Text)
    requires Level(a) == 0 && Balance(op) == 0
    ensures Top(a + [op] + b, op, 0) == Top(a, op, 0) + Top(b, op, 0)
    ensures Level(a + [op] + b) == Level(b)
  {
    hide Top, Balance, Glue;
    LevelAppend(a, [op]);
    LevelAppend(a + [op], b);
    assert Level([op]) == Balance(op) + Level([]);
    assert a + [op] + b == a + ([op] + b);
    TopAppend(a, [op] + b, op, 0);
    TopOfWord(op, b, op, 0);
    GlueBreak(Top(a, op, 0), Top(b, op, 0));
  }

  lemma GlueBreak(s: seq<Text>, t: seq<Text>)
    requires |s| >= 1 && |t| >= 1
    ensures Glue(s, [[]] + t) == s + t
  {
    assert ([[]] + t)[1..] == t;
    assert s[|s| - 1] + [] == s[|s| - 1];
  }

  lemma FreeJoined(a: Text, x: string, b: Text, op: string)
    requires Level(a) == 0 && Balance(x) == 0 && x != op
    requires Free(a, op) && Free(b, op)
    ensures Free(a + [x] + b, op)
  {
    hide Top, Balance;
    assert a + [x] + b == a + ([x] + b);
    TopAppend(a, [x] + b, op, 0);
    TopOfWord(x, b, op, 0);
    assert Top([x] + b, op, 0) == [[x] + b] by { assert [b][1..] == []; }
    assert [a][..0] == [];
  }

  lemma {:induction false} LevelJoin(parts: seq<Text>, op: string)
    requires Balance(op) == 0
    requires forall p :: p in parts ==> Level(p) == 0
    ensures Level(Join(parts, op)) == 0
  {
    if |parts| > 1 {
      LevelJoin(parts[1..], op);
      LevelAppend(parts[0], [op]);
      LevelAppend(parts[0] + [op], Join(parts[1..], op));
    }
  }

  lemma OperatorsAreLevel()
    ensures Balance("OR") == 0 && Balance("AND") == 0
  {
  }

  predicate InSome(q: Text, parts: seq<Text>, op: string) {
    exists p :: p in parts && q in Top(p, op, 0)
  }

  lemma InSomeHead(q: Text, parts: seq<Text>, op: string)
    requires parts != []
    ensures InSome(q, parts, op) <==> q in Top(parts[0], op, 0) || InSome(q, parts[1..], op)
  {
    hide Top;
    assert parts == [parts[0]] + parts[1..];
    assert parts[0] in parts;
  }

  /** An operator between closed parts puts the parts of all of them in a row. */
  lemma {:induction false} TopOfJoin(parts: seq<Text>, op: string)
    requires parts != [] && Balance(op) == 0
    requires forall p :: p in parts ==> Level(p) == 0
    ensures forall q :: q in Top(Join(parts, op), op, 0) <==> InSome(q, parts, op)
  {
    hide Top, Balance, InSome;
    if |parts| > 1 {
      var rest := parts[1..];
      TopOfJoin(rest, op);
      TopJoined(parts[0], op, Join(rest, op));
    }
    forall q ensures q in Top(Join(parts, op), op, 0) <==> InSome(q, parts, op) {
      InSomeHead(q, parts, op);
      if |parts| == 1 {
        NotInNone(q, parts[1..], op);
      }
    }
  }

  lemma NotInNone(q: Text, parts: seq<Text>, op: string)
    requires parts == []
    ensures !InSome(q, parts, op)
  {
  }

  lemma {:induction false} FreeJoin(parts: seq<Text>, x: string, op: string)
    requires parts != [] && Balance(x) == 0 && x != op
    requires forall p :: p in parts ==> Level(p) == 0 && Free(p, op)
    ensures Free(Join(parts, x), op)
  {
    hide Top, Balance, Free;
    if |parts| > 1 {
      FreeJoin(parts[1..], x, op);
      FreeJoined(parts[0], x, Join(parts[1..], x), op);
    }
  }

  lemma ReadFree(ws: Text, v: set<Text>)
    requires Free(ws, "OR")
    ensures Read(ws, v) == ReadAnd(ws, v)
  {
    hide Top;
    assert ws in Top(ws, "OR", 0);
  }

  /** `OR` between closed expressions is disjunction. */
  lemma ReadJoinOr(parts: seq<Text>, v: set<Text>)
    requires parts != []
    requires forall p :: p in parts ==> Level(p) == 0
    ensures Read(Join(parts, "OR"), v) <==> exists p :: p in parts && Read(p, v)
  {
    hide Top, Join, ReadAnd;
    OperatorsAreLevel();
    TopOfJoin(parts, "OR");
  }

  /** `AND` between closed expressions is conjunction when none of them has an
      `OR` of its own outside parentheses. */
  lemma ReadJoinAnd(parts: seq<Text>, v: set<Text>)
    requires parts != []
    requires forall p :: p in parts ==> Level(p) == 0 && Free(p, "OR")
    ensures Read(Join(parts, "AND"), v) <==> forall p :: p in parts ==> Read(p, v)
  {
    hide Top, Join, Read, ReadUnit, Free;
    OperatorsAreLevel();
    TopOfJoin(parts, "AND");
    FreeJoin(parts, "AND", "OR");
    ReadFree(Join(parts, "AND"), v);
    forall p | p in parts ensures Read(p, v) == ReadAnd(p, v) {
      ReadFree(p, v);
    }
  }

  // ---------------------------------------------------- translating keeps meaning

  /** Every licence of the clause is translated to a closed expression, and one
      that has an `OR` outside parentheses stands alone. */
  predicate ClauseIsSafe(m: Mapping, clause: Text) {
    && (forall lic :: lic in Split(clause, "and") ==> Level(Render(m, lic)) == 0)
    && (|Split(clause, "and")| == 1
        || forall lic :: lic in Split(clause, "and") ==> Free(Render(m, lic), "OR"))
  }

  predicate ClauseHolds(m: Mapping, clause: Text, v: set<Text>) {
    forall lic :: lic in Split(clause, "and") ==> Read(Render(m, lic), v)
  }

  lemma {:induction false} RenderAllElements(m: Mapping, lics: seq<Text>)
    ensures |RenderAll(m, lics)| == |lics|
    ensures forall r :: r in RenderAll(m, lics) ==> exists lic :: lic in lics && r == Render(m, lic)
    ensures forall lic :: lic in lics ==> Render(m, lic) in RenderAll(m, lics)
  {
    hide Render;
    if lics != [] {
      RenderAllElements(m, lics[1..]);
      assert lics == [lics[0]] + lics[1..];
    }
  }

  lemma {:induction false} MapClausesElements(m: Mapping, clauses: seq<Text>)
    ensures |MapClauses(m, clauses)| == |clauses|
    ensures forall r :: r in MapClauses(m, clauses) ==> exists c :: c in clauses && r == MapClause(m, c)
    ensures forall c :: c in clauses ==> MapClause(m, c) in MapClauses(m, clauses)
  {
    hide MapClause;
    if clauses != [] {
      MapClausesElements(m, clauses[1..]);
      assert clauses == [clauses[0]] + clauses[1..];
    }
  }

  lemma ClauseMeaning(m: Mapping, clause: Text, v: set<Text>)
    requires ClauseIsSafe(m, clause)
    ensures Level(MapClause(m, clause)) == 0
    ensures Read(MapClause(m, clause), v) == ClauseHolds(m, clause, v)
  {
    hide Render, Split, SplitFrom, Read, Free, Level;
    var lics := Split(clause, "and");
    var parts := RenderAll(m, lics);
    RenderAllElements(m, lics);
    OperatorsAreLevel();
    LevelJoin(parts, "AND");
    if |lics| == 1 {
      assert lics[0] in lics && parts[0] in parts;
    } else {
      ReadJoinAnd(parts, v);
    }
  }

  /** The translation of a whole text holds exactly when, in one of its clauses,
      the translations of all licences do. */
  lemma TranslationKeepsMeaning(m: Mapping, text: Text, v: set<Text>)
    requires forall c :: c in Split(text, "or") ==> ClauseIsSafe(m, c)
    ensures Read(MapString(m, text), v) <==> exists c :: c in Split(text, "or") && ClauseHolds(m, c, v)
  {
    hide Split, SplitFrom, Read, ClauseIsSafe, ClauseHolds, MapClause;
    var clauses := Split(text, "or");
    var parts := MapClauses(m, clauses);
    MapClausesElements(m, clauses);
    forall c | c in clauses
      ensures Level(MapClause(m, c)) == 0 && Read(MapClause(m, c), v) == ClauseHolds(m, c, v)
    {
      ClauseMeaning(m, c, v);
    }
    ReadJoinOr(parts, v);
  }

  // --------------------------------------------- which texts and mappings are safe

  predicate Plain(ws: Text) {
    forall w :: w in ws ==> w != "OR" && '(' !in w && ')' !in w
  }

  /** Mapped licences are closed and have no `OR` outside parentheses. */
  ghost predicate MappingIsClosed(m: Mapping) {
    forall lic :: MapOne(m, lic).Some? ==> Closed(MapOne(m, lic).value)
  }

  predicate Closed(ws: Text) {
    Level(ws) == 0 && Free(ws, "OR")
  }

  lemma {:induction false} FreeWithout(ws: Text, op: string, d: int)
    requires op !in ws
    ensures Top(ws, op, d) == [ws]
  {
    if ws != [] {
      assert ws == [ws[0]] + ws[1..];
      FreeWithout(ws[1..], op, d + Balance(ws[0]));
    }
  }

  lemma {:induction false} BalanceAppend(a: string, b: string)
    ensures Balance(a + b) == Balance(a) + Balance(b)
  {
    if a == "" {
      assert a + b == b;
    } else {
      BalanceAppend(a[1..], b);
      assert (a + b)[1..] == a[1..] + b;
    }
  }

  lemma {:induction false} PlainIsLevel(ws: Text)
    requires Plain(ws)
    ensures Level(ws) == 0
  {
    if ws != [] {
      PlainIsLevel(ws[1..]);
      PlainWordIsLevel(ws[0]);
    }
  }

  lemma {:induction false} PlainWordIsLevel(w: string)
    requires '(' !in w && ')' !in w
    ensures Balance(w) == 0
  {
    if w != "" {
      PlainWordIsLevel(w[1..]);
    }
  }

  lemma {:induction false} LevelWrapped(open: string, ws: Text)
    requires ws != [] && Balance(open) == 1
    ensures Level(Wrapped(open, ws)) == Level(ws)
  {
    hide Balance;
    var n := |ws|;
    ClosingSign();
    if n == 1 {
      BalanceAppend(open + ws[0], ")");
      BalanceAppend(open, ws[0]);
    } else {
      var mid := ws[1..n - 1];
      assert ws == [ws[0]] + mid + [ws[n - 1]];
      BalanceAppend(open, ws[0]);
      BalanceAppend(ws[n - 1], ")");
      LevelAppend([ws[0]] + mid, [ws[n - 1]]);
      LevelAppend([ws[0]], mid);
      LevelAppend([open + ws[0]] + mid, [ws[n - 1] + ")"]);
      LevelAppend([open + ws[0]], mid);
    }
  }

  lemma ClosingSign()
    ensures Balance(")") == -1 && Balance("(") == 1
  {
  }

  lemma {:induction false} SplitKeepsWords(ws: Text, op: string, cur: Text)
    ensures forall p, w :: p in SplitFrom(ws, op, cur) && w in p ==> w in cur || w in ws
    decreases |ws|
  {
    if ws != [] {
      if ws[0] == op && cur != [] && |ws| > 1 {
        SplitKeepsWords(ws[1..], op, []);
      } else {
        SplitKeepsWords(ws[1..], op, cur + [ws[0]]);
      }
    }
  }

  lemma {:induction false} SplitIsNonempty(ws: Text, op: string, cur: Text)
    requires ws != [] || cur != []
    ensures forall p :: p in SplitFrom(ws, op, cur) ==> p != []
    decreases |ws|
  {
    if ws != [] {
      if ws[0] == op && cur != [] && |ws| > 1 {
        SplitIsNonempty(ws[1..], op, []);
      } else {
        SplitIsNonempty(ws[1..], op, cur + [ws[0]]);
      }
    }
  }

  lemma PlainPart(ws: Text, op: string, p: Text)
    requires ws != [] && Plain(ws) && p in Split(ws, op)
    ensures p != [] && Plain(p)
  {
    SplitKeepsWords(ws, op, []);
    SplitIsNonempty(ws, op, []);
  }

  lemma WrappedIsFree(open: string, ws: Text)
    requires ws != [] && Plain(ws) && |open| > 2
    ensures Free(Wrapped(open, ws), "OR")
  {
    hide Top;
    var r := Wrapped(open, ws);
    var last := ws[|ws| - 1] + ")";
    assert last[|last| - 1] == ')';
    forall k | 0 <= k < |r| ensures r[k] != "OR" {
      if 0 < k < |ws| - 1 {
        assert r[k] == ws[k] && ws[k] in ws;
      } else if k == 0 {
        assert |r[0]| > 2;
      } else {
        assert r[k] == last;
      }
    }
    FreeWithout(r, "OR", 0);
  }

  lemma RenderIsClosed(m: Mapping, lic: Text)
    requires MappingIsClosed(m) && lic != [] && Plain(lic)
    ensures Closed(Render(m, lic))
  {
    hide Split, Top, Free, Level, Wrapped, Balance;
    if MapOne(m, lic) == None {
      var parts := Split(lic, "with");
      PlainPart(lic, "with", parts[0]);
      var name := if MapOne(m, parts[0]).Some? then MapOne(m, parts[0]).value else Wrapped(UNKNOWN, parts[0]);
      if MapOne(m, parts[0]) == None {
        UnknownOpens();
        LevelWrapped(UNKNOWN, parts[0]);
        PlainIsLevel(parts[0]);
        WrappedIsFree(UNKNOWN, parts[0]);
      }
      if |parts| == 2 {
        PlainPart(lic, "with", parts[1]);
        WithIsClosed(name, parts[1]);
        assert Render(m, lic) == name + ["WITH"] + parts[1];
      }
    }
  }

  lemma UnknownOpens()
    ensures Balance(UNKNOWN) == 1
  {
    hide Balance;
    BalanceAppend("UNKNOWN_MAPPING", "(");
    PlainWordIsLevel("UNKNOWN_MAPPING");
    ClosingSign();
  }

  lemma WithIsClosed(name: Text, exception: Text)
    requires Closed(name) && Plain(exception)
    ensures Closed(name + ["WITH"] + exception)
  {
    hide Top, Balance;
    PlainWordIsLevel("WITH");
    PlainIsLevel(exception);
    FreeWithout(exception, "OR", 0);
    FreeJoined(name, "WITH", exception, "OR");
    LevelAppend(name, ["WITH"]);
    LevelAppend(name + ["WITH"], exception);
  }

  /** A plain text keeps its meaning under every mapping to closed expressions
      without an `OR` outside parentheses. */
  lemma PlainTextKeepsMeaning(m: Mapping, text: Text, v: set<Text>)
    requires MappingIsClosed(m) && text != [] && Plain(text)
    ensures Read(MapString(m, text), v) <==> exists c :: c in Split(text, "or") && ClauseHolds(m, c, v)
  {
    hide Split, Read, Render, Plain, MappingIsClosed, ClauseHolds, Level, Free, MapString;
    forall c | c in Split(text, "or") ensures ClauseIsSafe(m, c) {
      PlainPart(text, "or", c);
      forall lic | lic in Split(c, "and") ensures Closed(Render(m, lic)) {
        PlainPart(c, "and", lic);
        RenderIsClosed(m, lic);
      }
    }
    TranslationKeepsMeaning(m, text, v);
  }

  /** A text without operators that is not in parentheses is one licence. */
  lemma OperatorFreeIsOneLicence(ws: Text, v: set<Text>)
    requires "OR" !in ws && "AND" !in ws && !Enclosed(ws)
    ensures Read(ws, v) <==> ws in v
  {
    hide Top, Enclosed;
    FreeWithout(ws, "OR", 0);
    FreeWithout(ws, "AND", 0);
    ReadFree(ws, v);
    assert ReadAnd(ws, v) == ReadUnit(ws, v) by {
      assert ws in Top(ws, "AND", 0);
    }
  }

  // ------------------------------------------------------------- license_string

  lemma {:induction false} NestedIsLevel(ws: Text, d: int)
    requires Nested(ws, d)
    ensures d + Level(ws) == 0
  {
    if ws != [] {
      NestedIsLevel(ws[1..], d + Balance(ws[0]));
    }
  }

  lemma {:induction false} WordNestedEnd(w: string, d: int)
    requires WordNested(w, d)
    ensures d + Balance(w) >= 0
  {
    if w != "" {
      WordNestedEnd(w[1..], d + CharBalance(w[0]));
    }
  }

  /** Inside one more pair of parentheses no operator splits. */
  lemma {:induction false} InsideIsWhole(ws: Text, op: string, d: int, last: string)
    requires ws != [] && Nested(ws, d)
    ensures Top(ws[..|ws| - 1] + [last], op, d + 1) == [ws[..|ws| - 1] + [last]]
  {
    hide Balance;
    var r := ws[..|ws| - 1] + [last];
    assert d >= 0;
    if |ws| == 1 {
      assert r == [last];
      TopOfWord(last, [], op, d + 1);
      assert [last] + [] == [last];
    } else {
      assert r == [ws[0]] + (ws[1..][..|ws[1..]| - 1] + [last]);
      TopOfWord(ws[0], ws[1..][..|ws[1..]| - 1] + [last], op, d + 1);
      InsideIsWhole(ws[1..], op, d + Balance(ws[0]), last);
    }
  }

  lemma WrappedIsWhole(ws: Text, op: string)
    requires ws != [] && Nested(ws, 0) && |op| > 1 && op[0] != '('
    ensures Top(Wrapped("(", ws), op, 0) == [Wrapped("(", ws)]
  {
    hide Balance, Top;
    var n := |ws|;
    var last := ws[n - 1] + ")";
    if n == 1 {
      FreeWithout(Wrapped("(", ws), op, 0);
    } else {
      var tail := ws[1..][..n - 2] + [last];
      assert ws[1..n - 1] == ws[1..][..n - 2];
      assert Wrapped("(", ws) == ["(" + ws[0]] + tail;
      ClosingSign();
      BalanceAppend("(", ws[0]);
      InsideIsWhole(ws[1..], op, Balance(ws[0]), last);
      TopOfWord("(" + ws[0], tail, op, 0);
    }
  }

  lemma WrappedStrips(ws: Text)
    requires ws != []
    ensures HasOuterSigns(Wrapped("(", ws)) && Strip(Wrapped("(", ws)) == ws
  {
    var n := |ws|;
    var r := Wrapped("(", ws);
    assert r[0][0] == '(';
    if n > 1 {
      assert r[0][1..] == ws[0];
      assert r[n - 1] == ws[n - 1] + ")";
      assert r[n - 1][..|r[n - 1]| - 1] == ws[n - 1];
      assert r[1..n - 1] == ws[1..n - 1];
    } else {
      assert r[0][1..|r[0]| - 1] == ws[0];
    }
  }

  /** Parentheses around an expression do not change what it means. */
  lemma WrappedMeansSame(ws: Text, v: set<Text>)
    requires ws != [] && Nested(ws, 0)
    ensures Read(Wrapped("(", ws), v) == Read(ws, v)
    ensures Level(Wrapped("(", ws)) == 0 && Free(Wrapped("(", ws), "OR")
  {
    hide Top, Balance, Level, Nested, Wrapped;
    var r := Wrapped("(", ws);
    WrappedIsWhole(ws, "OR");
    WrappedIsWhole(ws, "AND");
    WrappedStrips(ws);
    ReadFree(r, v);
    assert ReadAnd(r, v) == ReadUnit(r, v) by {
      assert r in Top(r, "AND", 0);
    }
    ClosingSign();
    LevelWrapped("(", ws);
    NestedIsLevel(ws, 0);
  }

  predicate WellFormed(ws: Text) {
    ws != [] && Nested(ws, 0) && ws[0] != "OR" && ws[|ws| - 1] != "OR"
  }

  lemma EntryMeansSame(ws: Text, v: set<Text>)
    requires WellFormed(ws)
    ensures Read(Entry(ws), v) == Read(ws, v)
    ensures Closed(Entry(ws))
  {
    hide Top, Balance, Level, Nested, Wrapped, Read;
    if HasInnerOr(ws) {
      WrappedMeansSame(ws, v);
    } else {
      assert "OR" !in ws;
      FreeWithout(ws, "OR", 0);
      NestedIsLevel(ws, 0);
    }
  }

  lemma {:induction false} EntriesElements(licenses: seq<Text>)
    ensures |Entries(licenses)| == |licenses|
    ensures forall r :: r in Entries(licenses) ==> exists ws :: ws in licenses && r == Entry(ws)
    ensures forall ws :: ws in licenses ==> Entry(ws) in Entries(licenses)
  {
    hide Entry;
    if licenses != [] {
      EntriesElements(licenses[1..]);
      assert licenses == [licenses[0]] + licenses[1..];
    }
  }

  /** The licence text of a package holds exactly when all its licences do. */
  lemma LicenseStringIsConjunction(licenses: seq<Text>, v: set<Text>)
    requires licenses != []
    requires forall ws :: ws in licenses ==> WellFormed(ws)
    ensures Read(Join(Entries(licenses), "AND"), v) <==> forall ws :: ws in licenses ==> Read(ws, v)
  {
    hide Read, Entry, Level, Free, Join, WellFormed;
    EntriesElements(licenses);
    forall ws | ws in licenses ensures Closed(Entry(ws)) && Read(Entry(ws), v) == Read(ws, v) {
      EntryMeansSame(ws, v);
    }
    ReadJoinAnd(Entries(licenses), v);
  }
}
