/** The line parser of mserver (mserver/IrcParser.cpp): an index that moves over
    the line, and a command object filled on the way. */
module IrcParser {
  import opened Common

  predicate Blank(c: char) {
    c == ' ' || c == '\t'
  }

  predicate AllBlank(s: string) {
    forall i :: 0 <= i < |s| ==> Blank(s[i])
  }

  predicate BlankFree(s: string) {
    forall i :: 0 <= i < |s| ==> !Blank(s[i])
  }

  /** The parts of a message. A missing prefix and an empty one are not told apart. */
  datatype Message = Message(prefix: string, command: string, params: seq<string>)

  // ----- what the parser computes, on suffixes of the line -----

  /** The text from its first character that is not blank. */
  ghost function Skip(s: string): (t: string)
    ensures |t| <= |s| && (t != "" ==> !Blank(t[0]))
  {
    if s != "" && Blank(s[0]) then Skip(s[1..]) else s
  }

  /** The text up to its first blank. */
  ghost function Token(s: string): (t: string)
    ensures t <= s && BlankFree(t) && (s != "" && !Blank(s[0]) ==> t != "")
  {
    if s != "" && !Blank(s[0]) then [s[0]] + Token(s[1..]) else ""
  }

  ghost function ParseParams(s: string): seq<string>
    decreases |s|
  {
    var t := Skip(s);
    if t == "" then []
    else if t[0] == ':' then [t[1..]]
    else [Token(t)] + ParseParams(t[|Token(t)|..])
  }

  /** The part of a line behind its prefix, from the command on. */
  ghost function AfterPrefix(line: string): string {
    var s := Skip(line);
    if s != "" && s[0] == ':' then Skip(s[1 + |Token(s[1..])|..]) else s
  }

  ghost function PrefixOf(line: string): string {
    var s := Skip(line);
    if s != "" && s[0] == ':' then Token(s[1..]) else ""
  }

  ghost function Parse(line: string): Option<Message> {
    var s := AfterPrefix(line);
    if s == "" then None
    else Some(Message(PrefixOf(line), Token(s), ParseParams(s[|Token(s)|..])))
  }

  /** The text behind the blanks it starts with. */
  lemma {:induction false} SkipIs(s: string, k: nat)
    requires k <= |s| && AllBlank(s[..k]) && (k < |s| ==> !Blank(s[k]))
    ensures Skip(s) == s[k..]
  {
    if k == 0 {
    } else {
      assert Blank(s[..k][0]);
      assert s[1..][..k - 1] == s[..k][1..] && s[1..][k - 1..] == s[k..];
      SkipIs(s[1..], k - 1);
    }
  }

  lemma {:induction false} TokenIs(s: string, k: nat)
    requires k <= |s| && BlankFree(s[..k]) && (k < |s| ==> Blank(s[k]))
    ensures Token(s) == s[..k]
  {
    if k == 0 {
    } else {
      assert !Blank(s[..k][0]);
      assert s[1..][..k - 1] == s[..k][1..];
      TokenIs(s[1..], k - 1);
      assert s[..k] == [s[0]] + s[..k][1..];
    }
  }

  // ----- the parser -----

  class Command {
    var prefix: string
    var command: string
    var params: seq<string>

    constructor ()
      ensures View() == Message("", "", [])
    {
      prefix, command, params := "", "", [];
    }

    ghost function View(): Message
      reads this
    {
      Message(prefix, command, params)
    }

    method Clear()
      modifies this
      ensures View() == Message("", "", [])
    {
      prefix, command, params := "", "", [];
    }

    method AddParam(param: string)
      modifies this
      ensures View() == old(View()).(params := old(params) + [param])
    {
      params := params + [param];
    }
  }

  method SkipSpaces(s: string, i: nat) returns (i': nat)
    requires i <= |s|
    ensures i <= i' <= |s| && s[i'..] == Skip(s[i..])
  {
    i' := i;
    while i' < |s| && (s[i'] == ' ' || s[i'] == '\t')
      invariant i <= i' <= |s| && AllBlank(s[i..i'])
    {
      assert s[i..i' + 1] == s[i..i'] + [s[i']];
      i' := i' + 1;
    }
    assert s[i..][..i' - i] == s[i..i'];
    SkipIs(s[i..], i' - i);
  }

  method ReadToken(s: string, i: nat) returns (token: string, i': nat)
    requires i <= |s|
    ensures token == Token(s[i..]) && i' == i + |token| && i' <= |s|
  {
    var start := i;
    i' := i;
    while i' < |s| && s[i'] != ' ' && s[i'] != '\t'
      invariant start <= i' <= |s| && BlankFree(s[start..i'])
    {
      assert s[start..i' + 1] == s[start..i'] + [s[i']];
      i' := i' + 1;
    }
    assert s[start..][..i' - start] == s[start..i'];
    TokenIs(s[start..], i' - start);
    token := s[start..i'];
  }

  /** Parses one line into `out`; false means that no command was found. */
  method ParseLine(line: string, out: Command) returns (ok: bool)
    modifies out
    ensures ok <==> Parse(line).Some?
    ensures out.View() == if ok then Parse(line).value else Message(PrefixOf(line), "", [])
  {
    out.Clear();
    var i := SkipSpaces(line, 0);
    assert line[0..] == line;
    if i >= |line| {
      return false;
    }
    i := ReadPrefix(line, i, out);
    if i >= |line| {
      return false;
    }
    ghost var s := line[i..];
    out.command, i := ReadToken(line, i);
    if out.command == "" {
      assert false;  // the check the source makes here never fires
    }
    assert s[|out.command|..] == line[i..];
    ReadParams(line, i, out);
    return true;
  }

  /** The optional prefix, up to the command. */
  method ReadPrefix(line: string, start: nat, out: Command) returns (i: nat)
    requires start < |line| && line[start..] == Skip(line)
    modifies out
    ensures i <= |line| && line[i..] == AfterPrefix(line)
    ensures out.View() == old(out.View()).(prefix := if line[start] == ':' then PrefixOf(line) else old(out.prefix))
  {
    i := start;
    if line[i] == ':' {
      ghost var s := line[i..];
      i := i + 1;
      assert s[1..] == line[i..];
      out.prefix, i := ReadToken(line, i);
      assert s[1 + |out.prefix|..] == line[i..];
      i := SkipSpaces(line, i);
    }
  }

  /** The loop that reads the parameters behind the command. */
  method ReadParams(line: string, start: nat, out: Command)
    requires start <= |line|
    modifies out
    ensures out.View() == old(out.View()).(params := old(out.params) + ParseParams(line[start..]))
  {
    var i := start;
    while i < |line|
      invariant start <= i <= |line|
      invariant out.prefix == old(out.prefix) && out.command == old(out.command)
      invariant out.params + ParseParams(line[i..]) == old(out.params) + ParseParams(line[start..])
    {
      ghost var rest := line[i..];
      i := SkipSpaces(line, i);
      if i >= |line| {
        return;
      }
      ghost var s := line[i..];
      if line[i] == ':' {
        i := i + 1;
        assert s[1..] == line[i..];
        out.AddParam(line[i..]);
        return;
      }
      var token;
      token, i := ReadToken(line, i);
      assert s[|token|..] == line[i..];
      Assoc(out.params, [token], ParseParams(line[i..]));
      out.AddParam(token);
    }
  }
}
