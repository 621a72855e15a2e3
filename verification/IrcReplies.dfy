/** Which numeric a refused command is answered with: each reply with exactly the
    condition it stands for. */
module IrcReplies {
  import opened Common
  import opened IrcState
  import opened IrcEffects

  ghost function Reply(s: State, fd: int, verb: Verb, params: seq<string>): Outcome
    requires fd in s.clients
  {
    Obey(s, fd, verb, params).1
  }

  /** The client may act for the channel. */
  ghost predicate Rules(s: State, name: string, fd: int) {
    IsMember(s, name, fd) && fd in s.channels[name].operators
  }

  lemma RegistrationReplies(s: State, fd: int, params: seq<string>)
    requires fd in s.clients
    ensures
      var c, pass, user := s.clients[fd], Reply(s, fd, PASS, params), Reply(s, fd, USER, params);
      && (pass == Refused("462") <==> c.registered) && (user == Refused("462") <==> c.registered)
      && (pass == Refused("461") <==> !c.registered && |params| == 0)
      && (user == Refused("461") <==> !c.registered && |params| <= 3)
      && (pass == Refused("464") <==> !c.registered && |params| > 0 && params[0] != s.password)
      && (pass == Done <==> !c.registered && |params| > 0 && params[0] == s.password)
      && (user == Done <==> !c.registered && |params| > 3)
  {
  }

  lemma NickReplies(s: State, fd: int, params: seq<string>)
    requires fd in s.clients
    ensures
      var r := Reply(s, fd, NICK, params);
      && (r == Refused("431") <==> |params| == 0)
      && (r == Refused("432") <==> |params| > 0 && !ValidNick(params[0]))
      && (r == Refused("433") <==> |params| > 0 && ValidNick(params[0]) && NickExists(s.clients, params[0]) &&
                                   s.clients[fd].nick != params[0])
      && (r == Done <==> |params| > 0 && ValidNick(params[0]) &&
                         (!NickExists(s.clients, params[0]) || s.clients[fd].nick == params[0]))
  {
  }

  lemma JoinReplies(s: State, fd: int, params: seq<string>)
    requires fd in s.clients
    ensures
      var r := Reply(s, fd, JOIN, params);
      && (r == Refused("461") <==> |params| == 0)
      && (r == Refused("403") <==> |params| > 0 && !ValidChannelName(params[0]))
      && (|params| > 0 && ValidChannelName(params[0]) ==>
            var name := params[0];
            if name !in s.channels then r == Done
            else
              var ch := s.channels[name];
              var keyless := ch.key != "" && (|params| == 1 || params[1] != ch.key);
              && (r == Ignored <==> fd in ch.members)
              && (r == Refused("473") <==> fd !in ch.members && ch.inviteOnly && fd !in ch.invited)
              && (r == Refused("475") <==> fd !in ch.members && (ch.inviteOnly ==> fd in ch.invited) && keyless)
              && (r == Refused("471") <==> fd !in ch.members && (ch.inviteOnly ==> fd in ch.invited) && !keyless &&
                                           ch.limit > 0 && ch.limit <= |ch.members|))
  {
  }

  lemma PartReplies(s: State, fd: int, params: seq<string>)
    requires fd in s.clients
    ensures
      var r := Reply(s, fd, PART, params);
      && (r == Refused("461") <==> |params| == 0)
      && (r == Refused("403") <==> |params| > 0 && params[0] !in s.channels)
      && (r == Refused("442") <==> |params| > 0 && params[0] in s.channels && !IsMember(s, params[0], fd))
      && (r == Done <==> |params| > 0 && IsMember(s, params[0], fd))
  {
  }

  lemma InviteReplies(s: State, fd: int, params: seq<string>)
    requires fd in s.clients
    ensures
      var r := Reply(s, fd, INVITE, params);
      && (r == Refused("461") <==> |params| <= 1)
      && (|params| > 1 ==>
            var target, name := Lookup(s.clients, params[0]), params[1];
            && (r == Refused("401") <==> target.None?)
            && (r == Refused("403") <==> target.Some? && name !in s.channels)
            && (r == Refused("442") <==> target.Some? && name in s.channels && !IsMember(s, name, fd))
            && (r == Refused("482") <==> target.Some? && IsMember(s, name, fd) && !Rules(s, name, fd))
            && (r == Refused("443") <==> target.Some? && Rules(s, name, fd) && IsMember(s, name, target.value))
            && (r == Done <==> target.Some? && Rules(s, name, fd) && !IsMember(s, name, target.value)))
  {
  }

  lemma KickReplies(s: State, fd: int, params: seq<string>)
    requires fd in s.clients
    ensures
      var r := Reply(s, fd, KICK, params);
      && (r == Refused("461") <==> |params| <= 1)
      && (|params| > 1 ==>
            var name, target := params[0], Lookup(s.clients, params[1]);
            && (r == Refused("403") <==> name !in s.channels)
            && (r == Refused("442") <==> name in s.channels && !IsMember(s, name, fd))
            && (r == Refused("482") <==> IsMember(s, name, fd) && !Rules(s, name, fd))
            && (r == Refused("401") <==> Rules(s, name, fd) && target.None?)
            && (r == Refused("441") <==> Rules(s, name, fd) && target.Some? && !IsMember(s, name, target.value))
            && (r == Done <==> Rules(s, name, fd) && target.Some? && IsMember(s, name, target.value)))
  {
  }

  /** The modes there are; the first group asks for a third parameter. */
  predicate AsksForMore(mode: string) {
    mode in {"+l", "+o", "-o", "+k"}
  }

  predicate Known(mode: string) {
    AsksForMore(mode) || mode in {"-l", "-k", "+t", "-t", "+i", "-i"}
  }

  lemma ModeReplies(s: State, fd: int, params: seq<string>)
    requires fd in s.clients
    ensures
      var r := Reply(s, fd, MODE, params);
      && (r == Refused("403") <==> |params| > 1 && params[0] !in s.channels)
      && (r == Refused("442") <==> |params| > 1 && params[0] in s.channels && !IsMember(s, params[0], fd))
      && (r == Refused("482") <==> |params| > 1 && IsMember(s, params[0], fd) && !Rules(s, params[0], fd))
      && (r == Refused("472") <==> |params| > 1 && Rules(s, params[0], fd) && !Known(params[1]))
      && (r == Refused("461") <==>
            |params| <= 1 ||
            (Rules(s, params[0], fd) && AsksForMore(params[1]) &&
             (|params| == 2 || (params[1] == "+l" && LimitOf(params[2]) == 0))))
  {
  }

  lemma OperatorModeReplies(s: State, fd: int, params: seq<string>)
    requires fd in s.clients && |params| > 2 && Rules(s, params[0], fd)
    ensures
      var r, target := Reply(s, fd, MODE, params), Lookup(s.clients, params[2]);
      if params[1] in {"+o", "-o"} then
        && (r == Refused("401") <==> target.None?)
        && (r == Refused("441") <==> target.Some? && !IsMember(s, params[0], target.value))
        && (r == Done <==> target.Some? && IsMember(s, params[0], target.value))
      else
        r == Done <==> Known(params[1]) && (params[1] == "+l" ==> LimitOf(params[2]) != 0)
  {
  }

  /** Modes that need nothing more are carried out for every operator. */
  lemma ShortModeReplies(s: State, fd: int, params: seq<string>)
    requires fd in s.clients && |params| == 2 && Rules(s, params[0], fd)
    ensures Reply(s, fd, MODE, params) == Done <==> Known(params[1]) && !AsksForMore(params[1])
  {
  }

  /** What a client may send before it is registered. */
  predicate Early(command: string) {
    command in {"CAP", "cap", "PASS", "pass", "NICK", "nick", "USER", "user", "QUIT", "quit", "PING", "ping",
                "INFO", "info", "DEBUGCHANNEL", "debugchannel"}
  }

  /** The replies outside the commands: an unknown word, and a command before registration. */
  lemma GateReplies(s: State, fd: int, command: string, params: seq<string>)
    requires fd in s.clients
    ensures
      var r := Dispatch(s, fd, command, params).1;
      && (r == Refused("451") <==> !s.clients[fd].registered && !Early(command))
      && (r == Refused("421") <==>
            (s.clients[fd].registered || Early(command)) &&
            ToUpper(command) !in {"PASS", "NICK", "USER", "JOIN", "PART", "CAP", "TOPIC", "INVITE", "KICK", "PRIVMSG",
                                  "MODE", "PING", "INFO", "DEBUGCHANNEL"})
  {
    WordsAreVerbs(ToUpper(command));
    OtherReplies(s, fd, VerbOf(ToUpper(command)), params);
  }

  lemma OtherReplies(s: State, fd: int, verb: Verb, params: seq<string>)
    requires fd in s.clients
    ensures Obey(s, fd, verb, params).1 != Refused("451")
    ensures Obey(s, fd, verb, params).1 == Refused("421") <==> verb == UNKNOWN
  {
    match verb
    case PASS => RegistrationReplies(s, fd, params);
    case NICK => NickReplies(s, fd, params);
    case USER => RegistrationReplies(s, fd, params);
    case JOIN => JoinReplies(s, fd, params);
    case PART => PartReplies(s, fd, params);
    case INVITE => InviteReplies(s, fd, params);
    case KICK => KickReplies(s, fd, params);
    case MODE => ModeReplies(s, fd, params);
    case STATELESS =>
    case UNKNOWN =>
  }

  /** A refused command changes nothing, but for a JOIN that spends an invite. */
  lemma RefusalsChangeNothing(s: State, fd: int, verb: Verb, params: seq<string>)
    requires fd in s.clients && verb != JOIN && Reply(s, fd, verb, params) != Done
    ensures Obey(s, fd, verb, params).0 == s
  {
    if verb == MODE && |params| > 1 && params[0] in s.channels {
      assert s.channels[params[0] := s.channels[params[0]]] == s.channels;
    }
  }

  // ----- letters and names -----

  /** Small letters become capitals, and nothing else changes. */
  lemma LettersByExample()
    ensures ToUpper("azAZ`{09_") == "AZAZ`{09_"
  {
    UpperIs("azAZ`{09_", "AZAZ`{09_");
  }

  /** The shortest channel names, and what nicknames are made of: the first and last
      characters allowed, and those next to them. */
  lemma NamesByExample()
    ensures ValidChannelName("#ab") && !ValidChannelName("#a") && !ValidChannelName("abc") && !ValidChannelName("")
    ensures ValidNick("azAZ09_-") && !ValidNick("") && !ValidNick("a b")
    ensures forall c :: c in "`{@[/:#., " ==> !ValidNick([c])
  {
    assert "a b"[1] == ' ';
    forall c | c in "`{@[/:#., " ensures !ValidNick([c]) {
      assert [c][0] == c && !NickChar(c);
    }
  }
}
