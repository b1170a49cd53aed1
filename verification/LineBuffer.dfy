/** Cutting the output of a command into lines while it arrives in chunks. */
module LineBuffer {
  import opened Lists
  import opened Strings

  const NL := '\n'

  /** Everything read before the pipe closes, which an empty chunk signals. */
  function Stream(chunks: seq<string>): string {
    if chunks == [] || chunks[0] == "" then "" else chunks[0] + Stream(chunks[1..])
  }

  /** The complete lines of a text. */
  function Lines(text: string): seq<string> {
    Front(Split(text, NL))
  }

  /** What follows the last newline. */
  function Tail(text: string): string {
    Last(Split(text, NL))
  }

  /** The lines of all messages in a row. */
  function AllLines(messages: seq<string>): seq<string> {
    if messages == [] then [] else Split(messages[0], NL) + AllLines(messages[1..])
  }

  ghost predicate IsLastNewline(text: string, k: nat) {
    k < |text| && text[k] == NL && NL !in text[k + 1..]
  }

  /** `block` is the text without its last newline. */
  ghost predicate DropsLastNewline(text: string, block: string) {
    exists k: nat :: IsLastNewline(text, k) && block == text[..k] + text[k + 1..]
  }

  /** `lines` with `rest` appended to its last element. */
  function Completed(lines: seq<string>, rest: string): seq<string>
    requires lines != []
  {
    lines[|lines| - 1 := lines[|lines| - 1] + rest]
  }

  class AsyncLogging {
    var lines: seq<string>
    var streamed: seq<string>
    var blocks: seq<string>

    constructor ()
      ensures lines == [] && streamed == [] && blocks == []
    {
      lines, streamed, blocks := [], [], [];
    }

    /** Takes in one chunk and echoes the lines it completes. */
    method TakeChunk(rest: string, chunk: string) returns (left: string)
      modifies this
      ensures blocks == old(blocks)
      ensures lines == old(lines) + Lines(rest + chunk)
      ensures left == Tail(rest + chunk)
      ensures streamed == old(streamed)
              + if Lines(rest + chunk) == [] then [] else [Join(Lines(rest + chunk), NL)]
    {
      hide Split, Join;
      var buf := rest + chunk;
      var cnt, j := 0, 0;
      ghost var parts := Split("", NL);
      SplitPlain("", NL);
      assert buf[..0] == "";
      for i := 0 to |buf|
        invariant 0 <= j <= i && blocks == old(blocks) && streamed == old(streamed)
        invariant parts == Split(buf[..i], NL) && cnt == |parts| - 1
        invariant lines == old(lines) + Front(parts) && buf[j..i] == Last(parts)
      {
        SplitSnoc(buf[..i], buf[i], NL);
        assert buf[..i + 1] == buf[..i] + [buf[i]];
        parts := Split(buf[..i + 1], NL);
        if buf[i] == NL {
          lines := lines + [buf[j..i]];
          cnt := cnt + 1;
          j := i + 1;
        }
      }
      assert buf[..|buf|] == buf;
      if cnt > 0 {
        assert lines[|lines| - cnt..] == Front(parts);
        streamed := streamed + [Join(lines[|lines| - cnt..], NL)];
      }
      left := buf[j..];
    }

    /** The messages hold the complete lines of the whole stream in order, however
        it was cut into chunks. The final block is the stream without its last
        newline; there is none if the stream has no newline. */
    method Run(chunks: seq<string>)
      requires lines == [] && streamed == []
      modifies this
      ensures AllLines(streamed) == Lines(Stream(chunks))
      ensures NL !in Stream(chunks) ==> blocks == old(blocks) && lines == []
      ensures NL in Stream(chunks)
              ==> |blocks| == |old(blocks)| + 1 && blocks[..|old(blocks)|] == old(blocks)
                  && DropsLastNewline(Stream(chunks), blocks[|old(blocks)|])
    {
      hide Split, Join, Stream, AllLines;
      var rest := "";
      ghost var got := "";
      SplitPlain("", NL);
      StreamOfNothing(chunks);
      var i := 0;
      while i < |chunks| && chunks[i] != ""
        invariant 0 <= i <= |chunks| && blocks == old(blocks)
        invariant got + Stream(chunks[i..]) == Stream(chunks)
        invariant lines == Lines(got) && rest == Tail(got) && AllLines(streamed) == lines
      {
        ghost var more, was := Lines(rest + chunks[i]), streamed;
        StreamStep(chunks[i..]);
        SplitResume(got, chunks[i], NL);
        if more != [] {
          AllLinesSnoc(streamed, Join(more, NL));
          SplitJoin(more, NL);
        }
        rest := TakeChunk(rest, chunks[i]);
        assert more == [] ==> streamed == was;
        got := got + chunks[i];
        i := i + 1;
      }
      StreamEnds(chunks[i..]);
      assert got == Stream(chunks);
      JoinSplit(got, NL);
      HasNewline(got);
      if |lines| > 0 {
        LastNewline(got, lines, rest);
        lines := Completed(lines, rest);
        blocks := blocks + [Join(lines, NL)];
      }
    }
  }

  lemma StreamOfNothing(chunks: seq<string>)
    ensures "" + Stream(chunks[0..]) == Stream(chunks)
    ensures AllLines([]) == []
  {
    assert chunks[0..] == chunks;
  }

  lemma StreamStep(chunks: seq<string>)
    requires chunks != [] && chunks[0] != ""
    ensures Stream(chunks) == chunks[0] + Stream(chunks[1..])
  {
  }

  lemma StreamEnds(chunks: seq<string>)
    requires chunks == [] || chunks[0] == ""
    ensures Stream(chunks) == ""
  {
  }

  lemma {:induction false} AllLinesSnoc(messages: seq<string>, message: string)
    ensures AllLines(messages + [message]) == AllLines(messages) + Split(message, NL)
  {
    hide Split;
    if messages == [] {
      assert messages + [message] == [message] && [message][1..] == [];
    } else {
      AllLinesSnoc(messages[1..], message);
      assert (messages + [message])[1..] == messages[1..] + [message];
    }
  }

  lemma {:induction false} JoinCompleted(parts: seq<string>, last: string, sep: char)
    requires parts != []
    ensures Join(Completed(parts, last), sep) == Join(parts, sep) + last
  {
    if |parts| > 1 {
      JoinCompleted(parts[1..], last, sep);
      assert Completed(parts, last)[1..] == Completed(parts[1..], last);
    }
  }

  lemma HasNewline(text: string)
    ensures Lines(text) == [] <==> NL !in text
  {
    hide Split;
    if NL !in text {
      SplitPlain(text, NL);
    }
    if Lines(text) == [] {
      JoinSplit(text, NL);
      assert Split(text, NL) == [Tail(text)];
      assert Tail(text) in Split(text, NL);
    }
  }

  lemma LastNewline(text: string, lines: seq<string>, rest: string)
    requires lines == Lines(text) && rest == Tail(text) && lines != []
    ensures DropsLastNewline(text, Join(Completed(lines, rest), NL))
  {
    hide Split, Join;
    assert Split(text, NL) == lines + [rest];
    JoinSplit(text, NL);
    JoinSnoc(lines, rest, NL);
    JoinCompleted(lines, rest, NL);
    assert rest in Split(text, NL);
    var k := |Join(lines, NL)|;
    assert text[k + 1..] == rest && text[..k] == Join(lines, NL);
    assert IsLastNewline(text, k);
  }

  /** The lines are those that give the text back, without newlines in them. */
  lemma LinesAndTail(text: string, lines: seq<string>, rest: string)
    ensures lines == Lines(text) && rest == Tail(text)
            <==> Join(lines + [rest], NL) == text && forall s :: s in lines + [rest] ==> NL !in s
  {
    hide Split, Join;
    JoinSplit(text, NL);
    assert Split(text, NL) == Lines(text) + [Tail(text)];
    if forall s :: s in lines + [rest] ==> NL !in s {
      SplitJoin(lines + [rest], NL);
      assert Front(lines + [rest]) == lines;
    }
  }
}
