/**
  Newline-delimited JSON over a stream cut into arbitrary chunks
  (ts/src/stream-decoder.ts). A chunk is the text decoded from its bytes.
*/
module Framing {
  import opened Basics
  import opened Text

  /** `text.split("\n")`. */
  function Split(text: string): (r: seq<string>)
    ensures |r| >= 1
  {
    if text == [] then [""]
    else
      var r := Split(text[1..]);
      if text[0] == '\n' then [""] + r else [[text[0]] + r[0]] + r[1..]
  }

  /** The lines whose newline has arrived. */
  function Complete(text: string): seq<string> {
    var r := Split(text);
    r[..|r| - 1]
  }

  /** The unfinished last line. */
  function Rest(text: string): string {
    var r := Split(text);
    r[|r| - 1]
  }

  /** Lines as they are written: each followed by a newline. */
  function Wire(lines: seq<string>): string {
    if lines == [] then "" else lines[0] + "\n" + Wire(lines[1..])
  }

  /** What one line yields: nothing when blank, itself without surrounding space otherwise. */
  function Yield(line: string): seq<string> {
    if Trim(line) == [] then [] else [Trim(line)]
  }

  /** `JSON.parse` accepts the line, or the line is blank. */
  predicate Acceptable(line: string, valid: string -> bool) {
    Trim(line) == [] || valid(Trim(line))
  }

  predicate AllAcceptable(lines: seq<string>, valid: string -> bool) {
    forall i | 0 <= i < |lines| :: Acceptable(lines[i], valid)
  }

  /** The messages of the lines before the first one that is not JSON. */
  function Good(lines: seq<string>, valid: string -> bool): seq<string> {
    if lines == [] || !Acceptable(lines[0], valid) then []
    else Yield(lines[0]) + Good(lines[1..], valid)
  }

  /** One call of `decode`: the messages, or None when it throws; and the new buffer. */
  function Decoded(buffer: string, chunk: string, valid: string -> bool): (Option<seq<string>>, string) {
    var lines := Complete(buffer + chunk);
    (if AllAcceptable(lines, valid) then Some(Good(lines, valid)) else None, Rest(buffer + chunk))
  }

  class JsonStreamDecoder {
    var buffer: string

    constructor ()
      ensures buffer == ""
    {
      buffer := "";
    }

    method Decode(chunk: string, valid: string -> bool) returns (r: Option<seq<string>>)
      modifies this
      ensures r == Decoded(old(buffer), chunk, valid).0
      ensures buffer == Decoded(old(buffer), chunk, valid).1
    {
      buffer := buffer + chunk;
      var lines := Split(buffer);
      buffer := lines[|lines| - 1];
      r := ProcessLines(lines[..|lines| - 1], valid);
    }
  }

  /** The loop over the complete lines. */
  method ProcessLines(lines: seq<string>, valid: string -> bool) returns (r: Option<seq<string>>)
    ensures r == if AllAcceptable(lines, valid) then Some(Good(lines, valid)) else None
  {
    hide *;
    NoLines(valid);
    var results: seq<string> := [];
    var i := 0;
    assert lines[..0] == [] && lines[0..] == lines;
    while i < |lines|
      invariant 0 <= i <= |lines|
      invariant AllAcceptable(lines[..i], valid)
      invariant Good(lines, valid) == results + Good(lines[i..], valid)
    {
      OneMoreLine(lines, i, valid);
      var trimmed := Trim(lines[i]);
      if trimmed != [] {
        if !valid(trimmed) {
          return None;
        }
        results := results + [trimmed];
      }
      i := i + 1;
    }
    assert lines[..i] == lines && lines[i..] == [] && results + [] == results;
    r := Some(results);
  }

  /** One turn of the loop over the lines. */
  lemma OneMoreLine(lines: seq<string>, i: nat, valid: string -> bool)
    requires i < |lines| && AllAcceptable(lines[..i], valid)
    ensures if Trim(lines[i]) == [] || valid(Trim(lines[i])) then
              && AllAcceptable(lines[..i + 1], valid)
              && Good(lines[i..], valid) == (if Trim(lines[i]) == [] then [] else [Trim(lines[i])]) + Good(lines[i + 1..], valid)
            else !AllAcceptable(lines, valid)
  {
  }

  /** The read loop fed with chunks: what was handed on, whether it is still reading, and the buffer. */
  datatype Feed = Feed(delivered: seq<string>, reading: bool, buffer: string)

  /** A line that is not JSON ends the loop, and with it the call that would have returned the chunk's messages. */
  function Fed(buffer: string, chunks: seq<string>, valid: string -> bool): Feed
    decreases chunks
  {
    if chunks == [] then Feed([], true, buffer)
    else
      match Decoded(buffer, chunks[0], valid)
      case (None, rest) => Feed([], false, rest)
      case (Some(ms), rest) =>
        var f := Fed(rest, chunks[1..], valid);
        f.(delivered := ms + f.delivered)
  }

  function Concat(chunks: seq<string>): string {
    if chunks == [] then "" else chunks[0] + Concat(chunks[1..])
  }

  // ----- splitting -----

  /** How the first character of a text joins the lines of the others. */
  lemma SplitFirst(text: string)
    requires text != []
    ensures var (c, lines, rest) := (text[0], Complete(text[1..]), Rest(text[1..]));
            if c == '\n' then Complete(text) == [""] + lines && Rest(text) == rest
            else if lines == [] then Complete(text) == [] && Rest(text) == [c] + rest
            else Complete(text) == [[c] + lines[0]] + lines[1..] && Rest(text) == rest
  {
  }

  /** The lines and the rest make up the text, and none of them contains a newline. */
  lemma {:induction false} SplitParts(text: string)
    ensures text == Wire(Complete(text)) + Rest(text)
    ensures '\n' !in Rest(text) && forall i | 0 <= i < |Complete(text)| :: '\n' !in Complete(text)[i]
    decreases text
  {
    if text == [] {
      EmptyText();
    } else {
      hide Complete, Rest, Wire;
      var (c, lines, rest) := (text[0], Complete(text[1..]), Rest(text[1..]));
      SplitFirst(text);
      SplitParts(text[1..]);
      assert text == [c] + text[1..];
      if c == '\n' {
        WireHead("", lines);
        assert "" + "\n" + Wire(lines) + rest == [c] + (Wire(lines) + rest);
      } else if lines != [] {
        WireHead(lines[0], lines[1..]);
        WireHead([c] + lines[0], lines[1..]);
        assert [lines[0]] + lines[1..] == lines;
        assert [c] + lines[0] + "\n" + Wire(lines[1..]) + rest == [c] + (lines[0] + "\n" + Wire(lines[1..]) + rest);
      } else {
        EmptyText();
        assert "" + ([c] + rest) == [c] + ("" + rest);
      }
    }
  }

  lemma WireHead(line: string, lines: seq<string>)
    ensures Wire([line] + lines) == line + "\n" + Wire(lines)
  {
  }

  lemma EmptyText()
    ensures Complete("") == [] && Rest("") == "" && Wire([]) == ""
  {
  }

  /** Whether or not a chunk brings a bad line, the buffer is left with what follows the last newline, so that no line is seen twice. */
  lemma BufferIsTail(buffer: string, chunk: string, valid: string -> bool)
    ensures var rest := Decoded(buffer, chunk, valid).1;
            '\n' !in rest && buffer + chunk == Wire(Complete(buffer + chunk)) + rest
  {
    SplitParts(buffer + chunk);
  }

  /** Splitting a longer text: the earlier lines are final, and the rest goes on from where it stood. */
  lemma {:induction false} SplitContinues(a: string, b: string)
    ensures Complete(a + b) == Complete(a) + Complete(Rest(a) + b)
    ensures Rest(a + b) == Rest(Rest(a) + b)
    decreases a
  {
    EmptyText();
    hide Complete, Rest;
    if a == [] {
      assert a + b == b && Rest(a) + b == b;
    } else {
      assert (a + b)[1..] == a[1..] + b;
      SplitFirst(a);
      SplitFirst(a + b);
      SplitContinues(a[1..], b);
      if a[0] != '\n' && Complete(a[1..]) == [] {
        NoNewline(a[1..]);
        assert Rest(a) + b == a + b;
      }
    }
  }

  lemma NoNewline(a: string)
    requires Complete(a) == []
    ensures Rest(a) == a
  {
    SplitParts(a);
  }

  // ----- any chunking yields the same -----

  lemma {:induction false} GoodJoin(xs: seq<string>, ys: seq<string>, valid: string -> bool)
    ensures Good(xs + ys, valid) == if AllAcceptable(xs, valid) then Good(xs, valid) + Good(ys, valid) else Good(xs, valid)
    ensures AllAcceptable(xs + ys, valid) <==> AllAcceptable(xs, valid) && AllAcceptable(ys, valid)
    decreases xs
  {
    hide Acceptable, Yield;
    assert AllAcceptable(xs + ys, valid) <==> AllAcceptable(xs, valid) && AllAcceptable(ys, valid) by {
      forall i | 0 <= i < |xs| ensures xs[i] == (xs + ys)[i] {
      }
      forall i | 0 <= i < |ys| ensures ys[i] == (xs + ys)[|xs| + i] {
      }
    }
    if xs == [] {
      assert xs + ys == ys;
    } else {
      GoodJoin(xs[1..], ys, valid);
      assert (xs + ys)[1..] == xs[1..] + ys;
      assert AllAcceptable(xs, valid) <==> Acceptable(xs[0], valid) && AllAcceptable(xs[1..], valid) by {
        forall i | 1 <= i < |xs| ensures xs[i] == xs[1..][i - 1] {
        }
      }
    }
  }

  /**
    However the text is cut, the loop keeps reading exactly when every complete line is
    acceptable, and has then handed on exactly their messages and kept the text after the
    last newline.
  */
  lemma {:induction false} ChunkIndependence(buffer: string, chunks: seq<string>, valid: string -> bool)
    requires Complete(buffer) == [] && Rest(buffer) == buffer
    ensures var (f, text) := (Fed(buffer, chunks, valid), buffer + Concat(chunks));
            && (f.reading <==> AllAcceptable(Complete(text), valid))
            && (f.reading ==> f.delivered == Good(Complete(text), valid) && f.buffer == Rest(text))
    decreases chunks
  {
    hide Split, AllAcceptable;
    if chunks == [] {
      assert buffer + Concat(chunks) == buffer;
      NoLines(valid);
    } else {
      var head := buffer + chunks[0];
      assert buffer + Concat(chunks) == head + Concat(chunks[1..]);
      RestIsBuffer(head);
      ChunkIndependence(Rest(head), chunks[1..], valid);
      SplitContinues(head, Concat(chunks[1..]));
      GoodJoin(Complete(head), Complete(Rest(head) + Concat(chunks[1..])), valid);
    }
  }

  lemma NoLines(valid: string -> bool)
    ensures AllAcceptable([], valid) && Good([], valid) == []
  {
  }

  /** What is kept in the buffer is one unfinished line. */
  lemma RestIsBuffer(text: string)
    ensures Complete(Rest(text)) == [] && Rest(Rest(text)) == Rest(text)
  {
    SplitParts(text);
    OneLine(Rest(text));
  }

  lemma {:induction false} OneLine(s: string)
    requires '\n' !in s
    ensures Split(s) == [s]
    decreases s
  {
    if s != [] {
      OneLine(s[1..]);
      assert s == [s[0]] + s[1..];
    }
  }

  // ----- messages -----

  /** What a peer writes as one message. */
  ghost predicate IsMessage(m: string, valid: string -> bool) {
    m != [] && '\n' !in m && Trim(m) == m && valid(m)
  }

  lemma {:induction false} LinesOfWire(lines: seq<string>, tail: string)
    requires forall i | 0 <= i < |lines| :: '\n' !in lines[i]
    requires '\n' !in tail
    ensures Complete(Wire(lines) + tail) == lines && Rest(Wire(lines) + tail) == tail
    decreases lines
  {
    if lines == [] {
      assert Wire(lines) + tail == tail;
      OneLine(tail);
    } else {
      LinesOfWire(lines[1..], tail);
      var more := Wire(lines[1..]) + tail;
      assert Wire(lines) + tail == (lines[0] + "\n") + more;
      LineBreak(lines[0]);
      SplitContinues(lines[0] + "\n", more);
      assert "" + more == more;
      assert lines == [lines[0]] + lines[1..];
    }
  }

  lemma {:induction false} LineBreak(line: string)
    requires '\n' !in line
    ensures Split(line + "\n") == [line, ""]
    decreases line
  {
    if line == [] {
      assert line + "\n" == "\n";
      assert Split("\n"[1..]) == [""];
    } else {
      LineBreak(line[1..]);
      assert (line + "\n")[1..] == line[1..] + "\n";
      assert line == [line[0]] + line[1..];
    }
  }

  lemma {:induction false} MessagesAreGood(ms: seq<string>, valid: string -> bool)
    requires forall i | 0 <= i < |ms| :: IsMessage(ms[i], valid)
    ensures AllAcceptable(ms, valid) && Good(ms, valid) == ms
    decreases ms
  {
    if ms != [] {
      assert IsMessage(ms[0], valid);
      assert forall i | 0 <= i < |ms[1..]| :: ms[1..][i] == ms[i + 1];
      MessagesAreGood(ms[1..], valid);
      assert ms == [ms[0]] + ms[1..];
    }
  }

  /**
    The stream of a peer's messages, received so far in any chunks, possibly ending in the
    middle of a message: the messages received whole have been handed on, in order, the
    rest is in the buffer, and nothing is lost or invented.
  */
  lemma StreamIsDelivered(ms: seq<string>, chunks: seq<string>, missing: string, valid: string -> bool)
    requires forall i | 0 <= i < |ms| :: IsMessage(ms[i], valid)
    requires Concat(chunks) + missing == Wire(ms)
    ensures var f := Fed("", chunks, valid);
            && f.reading && f.delivered <= ms && Wire(f.delivered) + f.buffer == Concat(chunks)
            && '\n' !in f.buffer
            && (missing == "" ==> f.delivered == ms && f.buffer == "")
  {
    hide Split, Trim, Yield, Acceptable;
    var text := Concat(chunks);
    OneLine("");
    assert Split("") == [""];
    assert Complete("") == [] && Rest("") == "";
    ChunkIndependence("", chunks, valid);
    assert "" + text == text;
    MessagesAreGood(ms, valid);
    assert Wire(ms) + "" == Wire(ms);
    forall i | 0 <= i < |ms| ensures '\n' !in ms[i] {
      assert IsMessage(ms[i], valid);
    }
    LinesOfWire(ms, "");
    SplitContinues(text, missing);
    var got := Complete(text);
    assert got == ms[..|got|];
    forall i | 0 <= i < |got| ensures IsMessage(got[i], valid) {
      assert got[i] == ms[i];
    }
    MessagesAreGood(got, valid);
    SplitParts(text);
    if missing == "" {
      assert text + missing == text;
    }
  }

  // ----- a line that is not JSON -----

  /** Messages that arrived whole, before the line that is not JSON, but in the same chunk: never handed on. */
  function Swallowed(buffer: string, chunks: seq<string>, valid: string -> bool): seq<string>
    decreases chunks
  {
    if chunks == [] then []
    else
      match Decoded(buffer, chunks[0], valid)
      case (None, _) => Good(Complete(buffer + chunks[0]), valid)
      case (Some(_), rest) => Swallowed(rest, chunks[1..], valid)
  }

  /**
    After a line that is not JSON: what was handed on and what was swallowed together are
    the messages before that line. So none of them is lost exactly when the chunk with the
    end of that line completes no message before it.
  */
  lemma {:induction false} BadLineSwallows(buffer: string, chunks: seq<string>, valid: string -> bool)
    requires Complete(buffer) == [] && Rest(buffer) == buffer && !Fed(buffer, chunks, valid).reading
    ensures var (f, lost) := (Fed(buffer, chunks, valid), Swallowed(buffer, chunks, valid));
            var before := Good(Complete(buffer + Concat(chunks)), valid);
            f.delivered + lost == before && (f.delivered == before <==> lost == [])
    decreases chunks
  {
    hide *;
    FedStep(buffer, chunks, valid);
    var (head, more) := (buffer + chunks[0], Concat(chunks[1..]));
    SplitContinues(head, more);
    GoodJoin(Complete(head), Complete(Rest(head) + more), valid);
    if AllAcceptable(Complete(head), valid) {
      RestIsBuffer(head);
      BadLineSwallows(Rest(head), chunks[1..], valid);
      JoinThree(Good(Complete(head), valid), Fed(Rest(head), chunks[1..], valid).delivered, Swallowed(Rest(head), chunks[1..], valid));
    } else {
      JoinThree([], [], Good(Complete(head), valid));
    }
  }

  /** The read loop's first chunk. */
  lemma FedStep(buffer: string, chunks: seq<string>, valid: string -> bool)
    ensures chunks == [] ==> Fed(buffer, chunks, valid).reading
    ensures chunks != [] ==>
              var head := buffer + chunks[0];
              var (f, g) := (Fed(buffer, chunks, valid), Fed(Rest(head), chunks[1..], valid));
              && buffer + Concat(chunks) == head + Concat(chunks[1..])
              && if AllAcceptable(Complete(head), valid) then
                   && f.reading == g.reading && f.delivered == Good(Complete(head), valid) + g.delivered
                   && Swallowed(buffer, chunks, valid) == Swallowed(Rest(head), chunks[1..], valid)
                 else !f.reading && f.delivered == [] && Swallowed(buffer, chunks, valid) == Good(Complete(head), valid)
  {
    hide Complete, Rest, Good, AllAcceptable;
  }

  lemma JoinThree(xs: seq<string>, ys: seq<string>, zs: seq<string>)
    ensures (xs + ys) + zs == xs + (ys + zs) && (xs == [] ==> xs + ys == ys)
    ensures xs + ys == xs + (ys + zs) <==> zs == []
  {
  }

  /** Two chunkings of the same text, a message then a line that is not JSON: one hands the message on, the other does not. */
  lemma ChunkingMatters(m: string, bad: string, valid: string -> bool)
    requires IsMessage(m, valid) && '\n' !in bad && Trim(bad) != [] && !valid(Trim(bad))
    ensures var (one, two) := (m + "\n", bad + "\n");
            && Concat([one, two]) == Concat([one + two])
            && Fed("", [one, two], valid).delivered == [m]
            && Fed("", [one + two], valid).delivered == []
  {
    hide Split, Trim;
    var (one, two) := (m + "\n", bad + "\n");
    assert [one, two][1..] == [two] && [two][1..] == [] && [one + two][1..] == [];
    LineBreak(m);
    LineBreak(bad);
    SplitContinues(one, two);
    assert Rest(one) + two == two && "" + one == one && "" + two == two && "" + (one + two) == one + two;
    assert Complete(one) == [m] && Complete(two) == [bad] && Complete(one + two) == [m, bad];
    assert [m][1..] == [];
    assert Acceptable([m][0], valid) && !Acceptable([bad][0], valid) && !Acceptable([m, bad][1], valid);
    assert IsMessage([m][0], valid);
    MessagesAreGood([m], valid);
    assert Decoded("", one, valid) == (Some([m]), "");
    assert Decoded("", two, valid).0 == None && Decoded("", one + two, valid).0 == None;
    assert Fed("", [two], valid).delivered == [];
  }
}
