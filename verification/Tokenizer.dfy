/** The shell's tokenizer (go/jsonrpc3/pkg/shell/parser.go): what a command line means, and how to write one. */
module Tokenizer {
  import opened Basics

  predicate IsQuote(c: char) {
    c == '"' || c == '\''
  }

  function Emit(current: string): seq<string> {
    if current == [] then [] else [current]
  }

  /** The tokens of the rest of a line, in the middle of a token and perhaps of a quotation. */
  function Scan(s: string, current: string, quote: Option<char>): seq<string>
    decreases s
  {
    if s == [] then Emit(current)
    else if IsQuote(s[0]) && quote.None? then Scan(s[1..], current, Some(s[0]))
    else if quote == Some(s[0]) then Scan(s[1..], current, None)
    else if s[0] == ' ' && quote.None? then Emit(current) + Scan(s[1..], [], None)
    else Scan(s[1..], current + [s[0]], quote)
  }

  method Tokenize(line: string) returns (tokens: seq<string>)
    ensures tokens == Scan(line, "", None)
  {
    tokens := [];
    var current := "";
    var inQuote, quoteChar := false, 0 as char;
    for i := 0 to |line|
      invariant tokens + Scan(line[i..], current, if inQuote then Some(quoteChar) else None) == Scan(line, "", None)
    {
      var ch := line[i];
      assert line[i..][0] == ch && line[i..][1..] == line[i + 1..];
      if (ch == '"' || ch == '\'') && !inQuote {
        inQuote, quoteChar := true, ch;
      } else if ch == quoteChar && inQuote {
        inQuote, quoteChar := false, 0 as char;
      } else if ch == ' ' && !inQuote {
        if |current| > 0 {
          tokens, current := tokens + [current], "";
        }
      } else {
        current := current + [ch];
      }
    }
    if |current| > 0 {
      tokens := tokens + [current];
    }
  }

  // ----- the language -----

  /** A word is written as a run of pieces, bare or quoted, without anything between them. */
  datatype Piece = Bare(body: string) | Quoted(quote: char, body: string)

  predicate WellWritten(p: Piece) {
    match p
    case Bare(body) => forall c | c in body :: c != ' ' && !IsQuote(c)
    case Quoted(q, body) => IsQuote(q) && q !in body
  }

  predicate WordWell(word: seq<Piece>) {
    forall p | p in word :: WellWritten(p)
  }

  predicate AllWellWritten(words: seq<seq<Piece>>) {
    forall i | 0 <= i < |words| :: WordWell(words[i])
  }

  function PieceText(p: Piece): string {
    match p
    case Bare(body) => body
    case Quoted(q, body) => [q] + body + [q]
  }

  function Text(ps: seq<Piece>): string {
    if ps == [] then "" else PieceText(ps[0]) + Text(ps[1..])
  }

  /** What a word means: its pieces without the quotes. */
  function Meaning(ps: seq<Piece>): string {
    if ps == [] then "" else ps[0].body + Meaning(ps[1..])
  }

  /** Words separated by single spaces; empty words stand for further spaces. */
  function Line(words: seq<seq<Piece>>): string {
    if words == [] then ""
    else if |words| == 1 then Text(words[0])
    else Text(words[0]) + " " + Line(words[1..])
  }

  /** A quotation that the line ends without closing. */
  datatype Open = Closed | Open(quote: char, body: string)

  predicate OpenWell(o: Open) {
    o.Open? ==> IsQuote(o.quote) && o.quote !in o.body
  }

  function OpenText(o: Open): string {
    match o
    case Closed => ""
    case Open(q, body) => [q] + body
  }

  function OpenMeaning(o: Open): string {
    if o.Open? then o.body else ""
  }

  /** The meanings of the words that are not empty; an unclosed quotation belongs to the last word. */
  function Meanings(words: seq<seq<Piece>>, o: Open): seq<string> {
    if words == [] then []
    else if |words| == 1 then Emit(Meaning(words[0]) + OpenMeaning(o))
    else Emit(Meaning(words[0])) + Meanings(words[1..], o)
  }

  lemma {:induction false} ScanBare(body: string, rest: string, current: string)
    requires WellWritten(Bare(body))
    ensures Scan(body + rest, current, None) == Scan(rest, current + body, None)
    decreases body
  {
    if body == [] {
      assert body + rest == rest && current + body == current;
    } else {
      var c := body[0];
      assert c in body;
      ScanBare(body[1..], rest, current + [c]);
      assert (body + rest)[1..] == body[1..] + rest;
      assert current + [c] + body[1..] == current + body;
    }
  }

  lemma {:induction false} ScanQuoted(q: char, body: string, rest: string, current: string)
    requires q !in body
    ensures Scan(body + [q] + rest, current, Some(q)) == Scan(rest, current + body, None)
    ensures Scan(body, current, Some(q)) == Emit(current + body)
    decreases body
  {
    if body == [] {
      assert body + [q] + rest == [q] + rest && current + body == current;
    } else {
      var c := body[0];
      ScanQuoted(q, body[1..], rest, current + [c]);
      assert (body + [q] + rest)[1..] == body[1..] + [q] + rest;
      assert current + [c] + body[1..] == current + body;
    }
  }

  lemma ScanPiece(p: Piece, rest: string, current: string)
    requires WellWritten(p)
    ensures Scan(PieceText(p) + rest, current, None) == Scan(rest, current + p.body, None)
  {
    match p
    case Bare(body) => ScanBare(body, rest, current);
    case Quoted(q, body) =>
      ScanQuoted(q, body, rest, current);
      assert (PieceText(p) + rest)[1..] == body + [q] + rest;
  }

  lemma {:induction false} ScanPieces(ps: seq<Piece>, rest: string, current: string)
    requires WordWell(ps)
    ensures Scan(Text(ps) + rest, current, None) == Scan(rest, current + Meaning(ps), None)
    decreases ps
  {
    hide Scan, PieceText, WellWritten;
    if ps == [] {
      assert Text(ps) + rest == rest && current + Meaning(ps) == current;
    } else {
      assert Text(ps) + rest == PieceText(ps[0]) + (Text(ps[1..]) + rest);
      ScanPiece(ps[0], Text(ps[1..]) + rest, current);
      ScanPieces(ps[1..], rest, current + ps[0].body);
      assert current + ps[0].body + Meaning(ps[1..]) == current + Meaning(ps);
    }
  }

  lemma ScanOpen(o: Open, current: string)
    requires OpenWell(o)
    ensures Scan(OpenText(o), current, None) == Emit(current + OpenMeaning(o))
  {
    match o
    case Closed => assert current + "" == current;
    case Open(q, body) =>
      ScanQuoted(q, body, "", current);
      assert OpenText(o)[1..] == body;
  }

  /** A line made of words, each written as pieces: its tokens are the meanings of the words that are not empty. */
  lemma {:induction false} TokensAreMeanings(words: seq<seq<Piece>>, o: Open)
    requires words != [] && AllWellWritten(words) && OpenWell(o)
    ensures Scan(Line(words) + OpenText(o), "", None) == Meanings(words, o)
    decreases words
  {
    hide PieceText, OpenText, OpenMeaning, WellWritten;
    var w := words[0];
    assert WordWell(w) && "" + Meaning(w) == Meaning(w);
    if |words| == 1 {
      ScanPieces(w, OpenText(o), "");
      ScanOpen(o, Meaning(w));
    } else {
      var rest := Line(words[1..]) + OpenText(o);
      assert Line(words) + OpenText(o) == Text(w) + (" " + rest);
      ScanPieces(w, " " + rest, "");
      assert (" " + rest)[1..] == rest;
      assert forall i | 0 <= i < |words[1..]| :: words[1..][i] == words[i + 1];
      TokensAreMeanings(words[1..], o);
    }
  }

  lemma Index(s: string, c: char) returns (k: nat)
    requires c in s
    ensures k < |s| && s[k] == c && c !in s[..k]
  {
    k := 0;
    while s[k] != c
      invariant k < |s| && c !in s[..k] && c in s[k..]
      decreases |s| - k
    {
      k := k + 1;
    }
  }

  lemma PrependPiece(p: Piece, words: seq<seq<Piece>>)
    requires words != []
    ensures Line([[p] + words[0]] + words[1..]) == PieceText(p) + Line(words)
  {
  }

  /** The line starts with a piece. */
  lemma FirstPiece(line: string) returns (p: Piece, k: nat)
    requires line != [] && line[0] != ' ' && (IsQuote(line[0]) ==> line[0] in line[1..])
    ensures 0 < k <= |line| && WellWritten(p) && line == PieceText(p) + line[k..]
  {
    var c := line[0];
    if IsQuote(c) {
      var n := Index(line[1..], c);
      assert line[1..][..n] == line[1..n + 1];
      p, k := Quoted(c, line[1..n + 1]), n + 2;
    } else {
      p, k := Bare([c]), 1;
    }
  }

  /** Every line is such a line. */
  lemma {:induction false} EveryLineIsWritten(line: string) returns (words: seq<seq<Piece>>, o: Open)
    ensures words != [] && AllWellWritten(words) && OpenWell(o) && line == Line(words) + OpenText(o)
    decreases line
  {
    hide WellWritten, PieceText, AllWellWritten, Line, OpenText, OpenWell;
    words, o := [[]], Closed;
    EmptyWord();
    if line != [] {
      if line[0] == ' ' {
        words, o := EveryLineIsWritten(line[1..]);
        PrependEmpty(words);
        assert line == " " + line[1..];
        assert line == (" " + Line(words)) + OpenText(o);
        words := [[]] + words;
      } else if IsQuote(line[0]) && line[0] !in line[1..] {
        o := Open(line[0], line[1..]);
        UnclosedLine(line);
      } else {
        var p, k := FirstPiece(line);
        words, o := EveryLineIsWritten(line[k..]);
        PrependPiece(p, words);
        PrependWell(p, words);
        assert line == (PieceText(p) + Line(words)) + OpenText(o);
        words := [[p] + words[0]] + words[1..];
      }
    }
  }

  lemma EmptyWord()
    ensures AllWellWritten([[]]) && Line([[]]) == "" && OpenWell(Closed) && OpenText(Closed) == "" && "" + "" == ""
  {
  }

  lemma UnclosedLine(line: string)
    requires line != [] && IsQuote(line[0]) && line[0] !in line[1..]
    ensures var o := Open(line[0], line[1..]); OpenWell(o) && line == "" + OpenText(o)
  {
  }

  lemma PrependEmpty(words: seq<seq<Piece>>)
    requires words != [] && AllWellWritten(words)
    ensures AllWellWritten([[]] + words) && Line([[]] + words) == " " + Line(words)
  {
  }

  lemma PrependWell(p: Piece, words: seq<seq<Piece>>)
    requires words != [] && AllWellWritten(words) && WellWritten(p)
    ensures AllWellWritten([[p] + words[0]] + words[1..])
  {
  }

  // ----- quoting -----

  /** A way to write any text: each character between quotes of the other kind. */
  function Quote(token: string): seq<Piece> {
    if token == [] then [] else [Quoted(if token[0] == '"' then '\'' else '"', [token[0]])] + Quote(token[1..])
  }

  function QuoteAll(tokens: seq<string>): seq<seq<Piece>> {
    if tokens == [] then [] else [Quote(tokens[0])] + QuoteAll(tokens[1..])
  }

  lemma {:induction false} QuoteMeans(token: string)
    ensures Meaning(Quote(token)) == token && WordWell(Quote(token))
    decreases token
  {
    if token != [] {
      QuoteMeans(token[1..]);
      assert Quote(token)[1..] == Quote(token[1..]);
      assert [token[0]] + token[1..] == token;
    }
  }

  lemma {:induction false} QuotedMeanings(tokens: seq<string>)
    requires tokens != [] && "" !in tokens
    ensures Meanings(QuoteAll(tokens), Closed) == tokens && AllWellWritten(QuoteAll(tokens))
    decreases tokens
  {
    hide WordWell, Quote;
    var ws := QuoteAll(tokens);
    QuoteMeans(tokens[0]);
    assert ws[0] == Quote(tokens[0]) && ws[1..] == QuoteAll(tokens[1..]);
    assert tokens == [tokens[0]] + tokens[1..];
    assert tokens[0] + "" == tokens[0];
    if |tokens| > 1 {
      QuotedMeanings(tokens[1..]);
    } else {
      assert ws == [ws[0]];
    }
  }

  /** Any tokens that are not empty, whatever characters they hold, survive quoting, joining and tokenizing. */
  lemma QuotingRoundTrip(tokens: seq<string>)
    requires tokens != [] && "" !in tokens
    ensures Scan(Line(QuoteAll(tokens)), "", None) == tokens
  {
    QuotedMeanings(tokens);
    TokensAreMeanings(QuoteAll(tokens), Closed);
    assert Line(QuoteAll(tokens)) + "" == Line(QuoteAll(tokens));
  }

  /** An empty token can be quoted but not received: no line yields one. */
  lemma {:induction false} NoEmptyToken(s: string, current: string, quote: Option<char>)
    ensures "" !in Scan(s, current, quote)
    decreases s
  {
    if s != [] {
      if IsQuote(s[0]) && quote.None? {
        NoEmptyToken(s[1..], current, Some(s[0]));
      } else if quote == Some(s[0]) {
        NoEmptyToken(s[1..], current, None);
      } else if s[0] == ' ' && quote.None? {
        NoEmptyToken(s[1..], [], None);
      } else {
        NoEmptyToken(s[1..], current + [s[0]], quote);
      }
    }
  }
}
