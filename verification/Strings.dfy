/** Splitting and joining at a one-character separator, as `str.split(sep)` and
    `sep.join(parts)` do it for path and line separators. */
module Strings {
  import opened Lists

  /** A path as the sequence of its components. */
  type Path = seq<string>

  /** Splits at every `sep`; the empty string gives one empty part. */
  function Split(s: string, sep: char): (parts: seq<string>)
    ensures |parts| >= 1
    ensures forall p | p in parts :: sep !in p
  {
    if s == "" then [""]
    else
      var rest := Split(s[1..], sep);
      if s[0] == sep then [""] + rest
      else
        assert forall p | p in rest[1..] :: p in rest;
        [[s[0]] + rest[0]] + rest[1..]
  }

  function Join(parts: seq<string>, sep: char): string {
    if |parts| == 0 then ""
    else if |parts| == 1 then parts[0]
    else parts[0] + [sep] + Join(parts[1..], sep)
  }

  lemma {:induction false} JoinSplit(s: string, sep: char)
    ensures Join(Split(s, sep), sep) == s
  {
    if s != "" {
      JoinSplit(s[1..], sep);
      var rest := Split(s[1..], sep);
      if s[0] == sep {
        assert ([""] + rest)[1..] == rest;
      } else {
        var parts := [[s[0]] + rest[0]] + rest[1..];
        assert parts[1..] == rest[1..];
        if |rest| > 1 {
          assert Join(parts, sep) == [s[0]] + (rest[0] + [sep] + Join(rest[1..], sep));
        }
      }
      assert [s[0]] + s[1..] == s;
    }
  }

  lemma {:induction false} SplitPlain(s: string, sep: char)
    requires sep !in s
    ensures Split(s, sep) == [s]
  {
    if s != "" {
      SplitPlain(s[1..], sep);
      assert [s[0]] + s[1..] == s;
    }
  }

  lemma {:induction false} SplitAtSep(a: string, b: string, sep: char)
    requires sep !in a
    ensures Split(a + [sep] + b, sep) == [a] + Split(b, sep)
  {
    var s := a + [sep] + b;
    if a == "" {
      assert s[1..] == b;
    } else {
      assert s[1..] == a[1..] + [sep] + b;
      SplitAtSep(a[1..], b, sep);
      assert [a[0]] + a[1..] == a;
    }
  }

  lemma {:induction false} SplitJoin(parts: seq<string>, sep: char)
    requires |parts| >= 1
    requires forall p | p in parts :: sep !in p
    ensures Split(Join(parts, sep), sep) == parts
  {
    if |parts| == 1 {
      SplitPlain(parts[0], sep);
    } else {
      SplitAtSep(parts[0], Join(parts[1..], sep), sep);
      SplitJoin(parts[1..], sep);
    }
  }

  lemma {:induction false} JoinSnoc(parts: seq<string>, c: string, sep: char)
    requires |parts| >= 1
    ensures Join(parts + [c], sep) == Join(parts, sep) + [sep] + c
  {
    if |parts| > 1 {
      JoinSnoc(parts[1..], c, sep);
      assert (parts + [c])[1..] == parts[1..] + [c];
    }
  }

  /** The parts of a text with `c` put in front. */
  function InFront(c: char, parts: seq<string>, sep: char): seq<string>
    requires parts != []
  {
    if c == sep then [""] + parts else [[c] + parts[0]] + parts[1..]
  }

  lemma SplitFront(s: string, sep: char)
    requires s != ""
    ensures Split(s, sep) == InFront(s[0], Split(s[1..], sep), sep)
  {
  }

  function Back(parts: seq<string>, c: char, sep: char): seq<string>
    requires parts != []
  {
    if c == sep then parts + [""] else Front(parts) + [Last(parts) + [c]]
  }

  lemma FrontBack(c: char, parts: seq<string>, d: char, sep: char)
    requires parts != []
    ensures InFront(c, parts, sep) != [] && Back(parts, d, sep) != []
    ensures Back(InFront(c, parts, sep), d, sep) == InFront(c, Back(parts, d, sep), sep)
  {
    var front, back := InFront(c, parts, sep), Back(parts, d, sep);
    if d == sep {
      assert Back(front, d, sep) == front + [""];
      assert c == sep ==> [""] + parts + [""] == [""] + (parts + [""]);
    } else if c == sep {
      assert Front(front) == [""] + Front(parts) && Last(front) == Last(parts);
      assert Back(front, d, sep) == [""] + Front(parts) + [Last(parts) + [d]];
    } else if |parts| == 1 {
      assert [c] + (parts[0] + [d]) == [c] + parts[0] + [d];
    } else {
      assert Front(front) == [[c] + parts[0]] + parts[1..|parts| - 1] && Last(front) == Last(parts);
      assert back[0] == parts[0] && back[1..] == parts[1..|parts| - 1] + [Last(parts) + [d]];
    }
  }

  lemma {:induction false} SplitSnoc(s: string, c: char, sep: char)
    ensures Split(s + [c], sep) == Back(Split(s, sep), c, sep)
  {
    hide Split, InFront, Back;
    if s == "" {
      SplitOne(c, sep);
      assert s + [c] == [c];
    } else {
      SplitSnoc(s[1..], c, sep);
      SplitFront(s, sep);
      SplitFront(s + [c], sep);
      FrontBack(s[0], Split(s[1..], sep), c, sep);
      assert (s + [c])[1..] == s[1..] + [c];
    }
  }

  lemma SplitOne(c: char, sep: char)
    ensures Split([c], sep) == Back(Split("", sep), c, sep)
  {
    assert [c][1..] == "" && [c] + "" == "" + [c];
  }

  /** Splitting can be resumed with the last part. */
  lemma {:induction false} SplitResume(a: string, b: string, sep: char)
    ensures Split(a + b, sep) == Front(Split(a, sep)) + Split(Last(Split(a, sep)) + b, sep)
  {
    hide Split;
    var init, last := Front(Split(a, sep)), Last(Split(a, sep));
    if b == "" {
      assert a + b == a && last + b == last;
      SplitPlain(last, sep);
      assert last in Split(a, sep);
    } else {
      var c, d := b[|b| - 1], b[..|b| - 1];
      assert a + b == a + d + [c] && last + b == last + d + [c];
      SplitResume(a, d, sep);
      SplitSnoc(a + d, c, sep);
      SplitSnoc(last + d, c, sep);
    }
  }
}
