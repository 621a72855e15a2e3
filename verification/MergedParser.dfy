/** The line parser of the merged server (merged_irc/srcs/Server.cpp and Command.cpp):
    what it makes of any line. */
module MergedParser {
  import opened Common
  import opened IrcParser

  /** std::string::find for one character; the length of the text when there is none. */
  function IndexOf(s: string, c: char): (i: nat)
    ensures i <= |s| && (i < |s| ==> s[i] == c) && forall k :: 0 <= k < i ==> s[k] != c
  {
    if s == "" || s[0] == c then 0 else 1 + IndexOf(s[1..], c)
  }

  predicate Lacks(s: string, c: char) {
    forall i :: 0 <= i < |s| ==> s[i] != c
  }

  /** The words between single spaces, empty ones left out. */
  ghost function Words(s: string): seq<string>
    decreases |s|
  {
    var p := IndexOf(s, ' ');
    if p == |s| then
      if s == "" then [] else [s]
    else
      (if p > 0 then [s[..p]] else []) + Words(s[p + 1..])
  }

  /** What stands behind the first colon, if it is something. */
  ghost function TrailingOf(line: string): string {
    var c := IndexOf(line, ':');
    if c < |line| then line[c + 1..] else ""
  }

  ghost function HeadOf(line: string): string {
    if TrailingOf(line) != "" then line[..IndexOf(line, ':')] else line
  }

  /** What is left of a line for the parameters: all of it when no space ends the command. */
  ghost function BehindCommand(head: string): string {
    var p := IndexOf(head, ' ');
    if p < |head| then head[p + 1..] else head
  }

  ghost function MergedParse(line: string): Message {
    if Lacks(line, ' ') && Lacks(line, ':') then Message("", line, [])
    else
      var head, trailing := HeadOf(line), TrailingOf(line);
      Message("", head[..IndexOf(head, ' ')], Words(BehindCommand(head)) + if trailing != "" then [trailing] else [])
  }

  lemma IndexIs(s: string, c: char, k: nat)
    requires k < |s| && s[k] == c && forall i :: 0 <= i < k ==> s[i] != c
    ensures IndexOf(s, c) == k
  {
  }

  lemma NotThere(s: string, c: char)
    requires Lacks(s, c)
    ensures IndexOf(s, c) == |s|
  {
  }

  // ----- no parameter is empty -----

  lemma {:induction false} WordsAreNotEmpty(s: string)
    ensures forall w :: w in Words(s) ==> w != ""
    decreases |s|
  {
    var p := IndexOf(s, ' ');
    if p == |s| {
    } else {
      WordsAreNotEmpty(s[p + 1..]);
    }
  }

  /** Whatever the line, no handler gets an empty parameter. */
  lemma ParamsAreNotEmpty(line: string)
    ensures forall p :: p in MergedParse(line).params ==> p != ""
  {
    if !Lacks(line, ' ') || !Lacks(line, ':') {
      WordsAreNotEmpty(BehindCommand(HeadOf(line)));
    }
  }

  // ----- the parser -----

  class Command {
    var cmd: string
    var trailing: string
    var parametres: seq<string>

    constructor ()
      ensures cmd == "" && trailing == "" && parametres == []
    {
      cmd, trailing, parametres := "", "", [];
    }

    /** The trailing text counts as last parameter unless it is empty. */
    function GetParams(): seq<string>
      reads this
    {
      parametres + if trailing != "" then [trailing] else []
    }

    ghost function View(): Message
      reads this
    {
      Message("", cmd, GetParams())
    }
  }

  method ParseCmd(line: string) returns (parsed: Command)
    ensures fresh(parsed) && parsed.View() == MergedParse(line)
  {
    parsed := new Command();
    if IndexOf(line, ' ') == |line| && IndexOf(line, ':') == |line| {
      assert line[..|line|] == line;
      parsed.cmd := line;
      return;
    }
    var cmd := TakeTrailing(parsed, line);
    cmd := TakeCommand(parsed, cmd);
    ReadWords(parsed, cmd);
    assert parsed.parametres == Words(BehindCommand(HeadOf(line)));
  }

  method TakeTrailing(parsed: Command, line: string) returns (cmd: string)
    requires parsed.trailing == ""
    modifies parsed`trailing
    ensures cmd == HeadOf(line) && parsed.trailing == TrailingOf(line)
  {
    cmd := line;
    var pos := IndexOf(cmd, ':');
    if pos < |cmd| {
      var subtrailing := cmd[pos + 1..];
      if subtrailing != "" {
        parsed.trailing := subtrailing;
        cmd := cmd[..pos];
      }
    }
  }

  /** Without a space behind it the command stays in the text, and becomes a parameter as well. */
  method TakeCommand(parsed: Command, head: string) returns (cmd: string)
    requires parsed.cmd == ""
    modifies parsed`cmd
    ensures cmd == BehindCommand(head) && parsed.cmd == head[..IndexOf(head, ' ')]
  {
    cmd := head;
    if cmd != "" {
      var pos := IndexOf(cmd, ' ');
      parsed.cmd := cmd[..pos];
      if pos < |cmd| {
        cmd := cmd[pos + 1..];
      }
    }
  }

  /** The loop over the rest, from space to space. */
  method ReadWords(parsed: Command, text: string)
    modifies parsed`parametres
    ensures parsed.parametres == old(parsed.parametres) + Words(text)
  {
    var cmd := text;
    while true
      invariant parsed.parametres + Words(cmd) == old(parsed.parametres) + Words(text)
      decreases |cmd|
    {
      var pos := IndexOf(cmd, ' ');
      if pos == |cmd| {
        if cmd != "" {
          parsed.parametres := parsed.parametres + [cmd];
        }
        return;
      }
      var subcmd := cmd[..pos];
      if subcmd != "" {
        Assoc(parsed.parametres, [subcmd], Words(cmd[pos + 1..]));
        parsed.parametres := parsed.parametres + [subcmd];
      }
      cmd := cmd[pos + 1..];
    }
  }
}
