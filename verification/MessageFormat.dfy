/** The message format the parser documents (section 2.3.1 of RFC 2812, with
    tabs and runs of blanks as separators) as a printer, and its round trips
    with the parser. */
module MessageFormat {
  import opened Common
  import opened IrcParser
  import opened Framing

  /** A parameter that can stand before the last one. */
  ghost predicate Middle(p: string) {
    p != "" && p[0] != ':' && BlankFree(p)
  }

  /** The messages the format can express: only the last parameter is free. */
  ghost predicate WellFormed(m: Message) {
    && BlankFree(m.prefix)
    && m.command != "" && BlankFree(m.command)
    && forall k :: 0 <= k < |m.params| - 1 ==> Middle(m.params[k])
  }

  ghost predicate Separator(s: string) {
    s != "" && AllBlank(s)
  }

  /** How the blanks of a printed line are chosen, and whether the last parameter
      is printed as trailing, behind a colon. */
  datatype Layout = Layout(lead: string, afterPrefix: string, gaps: seq<string>, colon: bool, tail: string)

  ghost predicate Fits(l: Layout, m: Message) {
    && AllBlank(l.lead) && Separator(l.afterPrefix)
    && |l.gaps| == |m.params| && (forall k :: 0 <= k < |l.gaps| ==> Separator(l.gaps[k]))
    && AllBlank(l.tail)
    && (m.params != [] ==> if l.colon then l.tail == "" else Middle(m.params[|m.params| - 1]))
  }

  ghost function PrintParams(params: seq<string>, gaps: seq<string>, colon: bool, tail: string): string
    requires |gaps| == |params|
    decreases |params|
  {
    if params == [] then tail
    else if |params| == 1 && colon then gaps[0] + ":" + params[0]
    else gaps[0] + params[0] + PrintParams(params[1..], gaps[1..], colon, tail)
  }

  /** A prefix is printed when there is one, or when the command could be taken for one. */
  ghost predicate PrintsPrefix(m: Message) {
    m.prefix != "" || (m.command != "" && m.command[0] == ':')
  }

  ghost function Print(m: Message, l: Layout): string
    requires |l.gaps| == |m.params|
  {
    var body := m.command + PrintParams(m.params, l.gaps, l.colon, l.tail);
    l.lead + if PrintsPrefix(m) then ":" + (m.prefix + (l.afterPrefix + body)) else body
  }

  // ----- printing, then parsing -----

  lemma SkipBlanks(blanks: string, s: string)
    requires AllBlank(blanks) && (s != "" ==> !Blank(s[0]))
    ensures Skip(blanks + s) == s
  {
    assert (blanks + s)[..|blanks|] == blanks && (blanks + s)[|blanks|..] == s;
    SkipIs(blanks + s, |blanks|);
  }

  lemma TokenThenBlank(token: string, s: string)
    requires BlankFree(token) && (s != "" ==> Blank(s[0]))
    ensures Token(token + s) == token && (token + s)[|token|..] == s
  {
    assert (token + s)[..|token|] == token;
    TokenIs(token + s, |token|);
  }

  lemma {:induction false} ParsePrintedParams(params: seq<string>, gaps: seq<string>, colon: bool, tail: string)
    requires |gaps| == |params| && forall k :: 0 <= k < |gaps| ==> Separator(gaps[k])
    requires forall k :: 0 <= k < |params| - 1 ==> Middle(params[k])
    requires AllBlank(tail)
    requires params != [] ==> if colon then tail == "" else Middle(params[|params| - 1])
    ensures ParseParams(PrintParams(params, gaps, colon, tail)) == params
    ensures var s := PrintParams(params, gaps, colon, tail); s != "" ==> Blank(s[0])
    decreases |params|
  {
    var s := PrintParams(params, gaps, colon, tail);
    if params == [] {
      assert tail + "" == tail;
      SkipBlanks(tail, "");
    } else if |params| == 1 && colon {
      assert s == gaps[0] + (":" + params[0]);
      SkipBlanks(gaps[0], ":" + params[0]);
      assert (":" + params[0])[1..] == params[0];
    } else {
      var rest := PrintParams(params[1..], gaps[1..], colon, tail);
      ParsePrintedParams(params[1..], gaps[1..], colon, tail);
      assert s == gaps[0] + (params[0] + rest);
      assert Middle(params[0]);
      SkipBlanks(gaps[0], params[0] + rest);
      TokenThenBlank(params[0], rest);
      assert params == [params[0]] + params[1..];
    }
  }

  /** Parsing a printed message gives the message back, whatever blanks separate its parts. */
  lemma ParseUndoesPrint(m: Message, l: Layout)
    requires WellFormed(m) && Fits(l, m)
    ensures Parse(Print(m, l)) == Some(m)
  {
    var params := PrintParams(m.params, l.gaps, l.colon, l.tail);
    ParsePrintedParams(m.params, l.gaps, l.colon, l.tail);
    TokenThenBlank(m.command, params);
    if PrintsPrefix(m) {
      PrefixPresent(l.lead, m.prefix, l.afterPrefix, m.command + params);
    } else {
      PrefixAbsent(l.lead, m.command + params);
    }
  }

  lemma PrefixAbsent(lead: string, body: string)
    requires AllBlank(lead) && body != "" && !Blank(body[0]) && body[0] != ':'
    ensures PrefixOf(lead + body) == "" && AfterPrefix(lead + body) == body
  {
    SkipBlanks(lead, body);
  }

  lemma PrefixPresent(lead: string, prefix: string, sep: string, body: string)
    requires AllBlank(lead) && BlankFree(prefix) && Separator(sep) && body != "" && !Blank(body[0])
    ensures
      var line := lead + (":" + (prefix + (sep + body)));
      PrefixOf(line) == prefix && AfterPrefix(line) == body
  {
    var behind := sep + body;
    var s := ":" + (prefix + behind);
    SkipBlanks(lead, s);
    assert s[1..] == prefix + behind;
    TokenThenBlank(prefix, behind);
    assert s[1 + |prefix|..] == behind;
    SkipBlanks(sep, body);
  }

  ghost function PrintAll(ms: seq<Message>, ls: seq<Layout>): (lines: seq<string>)
    requires |ls| == |ms| && forall k :: 0 <= k < |ms| ==> |ls[k].gaps| == |ms[k].params|
    ensures |lines| == |ms| && forall k :: 0 <= k < |ms| ==> lines[k] == Print(ms[k], ls[k])
  {
    seq(|ms|, k requires 0 <= k < |ms| => Print(ms[k], ls[k]))
  }

  /** End to end: printed messages, each ended by CRLF, cut into any chunks, come
      out of the receive loop and the parser as the messages they were, and a
      started line stays in the buffer. */
  lemma StreamCarriesMessages(ms: seq<Message>, ls: seq<Layout>, started: string, chunks: seq<string>)
    requires |ls| == |ms| && forall k :: 0 <= k < |ms| ==> WellFormed(ms[k])
    requires forall k :: 0 <= k < |ms| ==> Fits(ls[k], ms[k]) && |ls[k].gaps| == |ms[k].params|
    requires forall k :: 0 <= k < |ms| ==> !HasCrlf(Print(ms[k], ls[k]))
    requires !HasCrlf(started) && Concat(chunks) == Terminated(PrintAll(ms, ls)) + started
    ensures Rest(Concat(chunks)) == started && |Lines(Concat(chunks))| == |ms|
    ensures forall k :: 0 <= k < |ms| ==> Parse(Lines(Concat(chunks))[k]) == Some(ms[k])
  {
    SplitUndoesTerminating(PrintAll(ms, ls), started);
    forall k | 0 <= k < |ms| ensures Parse(Print(ms[k], ls[k])) == Some(ms[k]) {
      ParseUndoesPrint(ms[k], ls[k]);
    }
  }

  /** The messages the lines stand for; lines without a command are passed over. */
  ghost function Accepted(lines: seq<string>): seq<Message> {
    if lines == [] then []
    else
      var last := Parse(lines[|lines| - 1]);
      Accepted(lines[..|lines| - 1]) + if last.Some? then [last.value] else []
  }

  /** What becomes of each line that the receive loop hands on. */
  method ProcessLines(lines: seq<string>) returns (received: seq<Message>)
    ensures received == Accepted(lines)
  {
    received := [];
    var i := 0;
    while i < |lines|
      invariant 0 <= i <= |lines| && received == Accepted(lines[..i])
    {
      assert lines[..i + 1][..i] == lines[..i];
      var cmd := new Command();
      var ok := ParseLine(lines[i], cmd);
      if ok {
        received := received + [Message(cmd.prefix, cmd.command, cmd.params)];
      }
      i := i + 1;
    }
    assert lines[..i] == lines;
  }

  lemma OneMoreAccepted(lines: seq<string>, line: string, m: Message)
    requires Parse(line) == Some(m)
    ensures Accepted(lines + [line]) == Accepted(lines) + [m]
  {
    assert (lines + [line])[..|lines|] == lines;
  }

  lemma {:induction false} AllAccepted(lines: seq<string>, ms: seq<Message>)
    requires |lines| == |ms| && forall k :: 0 <= k < |ms| ==> Parse(lines[k]) == Some(ms[k])
    ensures Accepted(lines) == ms
  {
    if lines == [] {
    } else {
      var n := |lines| - 1;
      var before, earlier := lines[..n], ms[..n];
      forall k | 0 <= k < n ensures Parse(before[k]) == Some(earlier[k]) {
        assert before[k] == lines[k] && earlier[k] == ms[k];
      }
      AllAccepted(before, earlier);
      OneMoreAccepted(before, lines[n], ms[n]);
      EndsInLast(lines);
      EndsInLast(ms);
    }
  }

  /** The stream is the messages, printed as lines, with a started line behind them. */
  ghost predicate Sends(stream: string, ms: seq<Message>, ls: seq<Layout>, started: string) {
    && |ls| == |ms| && (forall k :: 0 <= k < |ms| ==> WellFormed(ms[k]))
    && (forall k :: 0 <= k < |ms| ==> Fits(ls[k], ms[k]) && |ls[k].gaps| == |ms[k].params|)
    && (forall k :: 0 <= k < |ms| ==> !HasCrlf(Print(ms[k], ls[k])))
    && !HasCrlf(started) && stream == Terminated(PrintAll(ms, ls)) + started
  }

  lemma SentIsAccepted(chunks: seq<string>, ms: seq<Message>, ls: seq<Layout>, started: string)
    requires Sends(Concat(chunks), ms, ls, started)
    ensures Accepted(Lines(Concat(chunks))) == ms && Rest(Concat(chunks)) == started
  {
    StreamCarriesMessages(ms, ls, started, chunks);
    AllAccepted(Lines(Concat(chunks)), ms);
  }

  /** The same through the receive loop: whatever the chunks, the messages come out. */
  method ReceiveMessages(chunks: seq<string>, ghost ms: seq<Message>, ghost ls: seq<Layout>, ghost started: string)
    returns (connection: Connection, received: seq<Message>)
    requires Sends(Concat(chunks), ms, ls, started)
    ensures received == ms && connection.buffer == started
  {
    SentIsAccepted(chunks, ms, ls, started);
    assert "" + Concat(chunks) == Concat(chunks);
    connection := new Connection();
    connection.ReceiveStream(chunks);
    assert connection.handed == Lines(Concat(chunks));
    received := ProcessLines(connection.handed);
  }

  // ----- parsing, then printing -----

  lemma {:induction false} ParsedParamsAreWellFormed(s: string)
    ensures forall k :: 0 <= k < |ParseParams(s)| - 1 ==> Middle(ParseParams(s)[k])
    decreases |s|
  {
    var t := Skip(s);
    if t == "" || t[0] == ':' {
    } else {
      ParsedParamsAreWellFormed(t[|Token(t)|..]);
    }
  }

  /** Whatever the line is, what the parser accepts is a message of the format. */
  lemma ParsedIsWellFormed(line: string)
    requires Parse(line).Some?
    ensures WellFormed(Parse(line).value)
  {
    var s := AfterPrefix(line);
    ParsedParamsAreWellFormed(s[|Token(s)|..]);
  }

  /** One blank between the parts, and the last parameter always behind a colon. */
  ghost function Canonical(m: Message): (l: Layout)
    ensures Fits(l, m)
  {
    Layout("", " ", seq(|m.params|, _ => " "), true, "")
  }

  /** The well-formed messages are exactly those some line stands for. */
  lemma WellFormedIffParsed(m: Message)
    ensures WellFormed(m) <==> exists line :: Parse(line) == Some(m)
  {
    if WellFormed(m) {
      ParseUndoesPrint(m, Canonical(m));
      assert Parse(Print(m, Canonical(m))) == Some(m);
    }
    if exists line :: Parse(line) == Some(m) {
      var line :| Parse(line) == Some(m);
      ParsedIsWellFormed(line);
    }
  }

  /** Writing a parsed line in canonical form keeps its meaning. */
  lemma CanonicalFormKeepsMeaning(line: string)
    requires Parse(line).Some?
    ensures Parse(Print(Parse(line).value, Canonical(Parse(line).value))) == Parse(line)
  {
    ParsedIsWellFormed(line);
    ParseUndoesPrint(Parse(line).value, Canonical(Parse(line).value));
  }

  /** Behind a blank there are only blanks. */
  ghost predicate BlanksToTheEnd(s: string) {
    forall a, b :: 0 <= a < b < |s| && Blank(s[a]) ==> Blank(s[b])
  }

  /** Blanks, or blanks around a single word that a colon starts. */
  ghost predicate HoldsNoCommand(line: string) {
    if line == "" then true
    else if Blank(line[0]) then HoldsNoCommand(line[1..])
    else line[0] == ':' && BlanksToTheEnd(line[1..])
  }

  /** The parser finds no command exactly in such a line. The comment in
      mserver/IrcParser.hpp mentions only the lines of blanks. */
  lemma {:induction false} RejectedIff(line: string)
    ensures Parse(line).None? <==> HoldsNoCommand(line)
  {
    if line == "" {
    } else if Blank(line[0]) {
      RejectedIff(line[1..]);
    } else if line[0] == ':' {
      BehindToken(line[1..]);
      assert line[1..][|Token(line[1..])|..] == line[1 + |Token(line[1..])|..];
    }
  }

  /** Any prefix alone is such a line, and not blank. */
  lemma PrefixAlone(prefix: string)
    requires BlankFree(prefix)
    ensures Parse(":" + prefix).None? && !AllBlank(":" + prefix)
  {
    var line := ":" + prefix;
    RejectedIff(line);
    assert line[0] == ':' && line[1..] == prefix;
  }

  lemma {:induction false} BehindToken(s: string)
    ensures Skip(s[|Token(s)|..]) == "" <==> BlanksToTheEnd(s)
  {
    if s == "" {
    } else if Blank(s[0]) {
      assert s[|Token(s)|..] == s;
      SkippedAway(s);
    } else {
      BehindToken(s[1..]);
      assert s[1..][|Token(s[1..])|..] == s[|Token(s)|..];
      SameBlanksBehind(s);
    }
  }

  lemma SameBlanksBehind(s: string)
    requires s != "" && !Blank(s[0])
    ensures BlanksToTheEnd(s[1..]) <==> BlanksToTheEnd(s)
  {
    var t := s[1..];
    if BlanksToTheEnd(s) {
      forall a, b | 0 <= a < b < |t| && Blank(t[a]) ensures Blank(t[b]) {
        assert t[a] == s[a + 1] && t[b] == s[b + 1];
      }
    }
    if BlanksToTheEnd(t) {
      forall a, b | 0 <= a < b < |s| && Blank(s[a]) ensures Blank(s[b]) {
        assert s[a] == t[a - 1] && s[b] == t[b - 1];
      }
    }
  }

  lemma {:induction false} SkippedAway(s: string)
    ensures Skip(s) == "" <==> AllBlank(s)
  {
    if s == "" || !Blank(s[0]) {
    } else {
      SkippedAway(s[1..]);
      assert forall k :: 1 <= k < |s| ==> s[k] == s[1..][k - 1];
    }
  }
}
