/** The state of the merged IRC server (merged_irc) as a value, and what each
    command, each accepted connection and each disconnect does to it. Clients are
    known by their file descriptor, as channels know them. */
module IrcState {
  import opened Common

  datatype Client = Client(nick: string, user: string, realName: string, authorized: bool, registered: bool)

  datatype Channel = Channel(
    name: string,
    members: set<int>,
    operators: set<int>,
    invited: set<int>,
    inviteOnly: bool,
    topicRestricted: bool,
    key: string,     // empty: no key
    limit: nat)      // zero: no limit

  datatype State = State(password: string, clients: map<int, Client>, channels: map<string, Channel>)

  /** What the sender is told: the command was carried out, was ignored without a
      word, was refused with a numeric reply, or is one that never changes this state. */
  datatype Outcome = Done | Ignored | Refused(code: string) | Elsewhere

  const ERR_NOSUCHNICK := "401"
  const ERR_NOSUCHCHANNEL := "403"
  const ERR_UNKNOWNCOMMAND := "421"
  const ERR_NONICKNAMEGIVEN := "431"
  const ERR_ERRONEUSNICKNAME := "432"
  const ERR_NICKNAMEINUSE := "433"
  const ERR_USERNOTINCHANNEL := "441"
  const ERR_NOTONCHANNEL := "442"
  const ERR_USERONCHANNEL := "443"
  const ERR_NOTREGISTERED := "451"
  const ERR_NEEDMOREPARAMS := "461"
  const ERR_ALREADYREGISTRED := "462"
  const ERR_PASSWDMISMATCH := "464"
  const ERR_CHANNELISFULL := "471"
  const ERR_UNKNOWNMODE := "472"
  const ERR_INVITEONLYCHAN := "473"
  const ERR_BADCHANNELKEY := "475"
  const ERR_CHANOPRIVSNEEDED := "482"

  // ----- tests on names -----

  predicate NickChar(c: char) {
    || 'a' <= c <= 'z' || 'A' <= c <= 'Z' || '0' <= c <= '9'
    || c == '_' || c == '-'
  }

  predicate ValidNick(nick: string) {
    nick != "" && forall i :: 0 <= i < |nick| ==> NickChar(nick[i])
  }

  predicate ValidChannelName(name: string) {
    name != "" && name[0] == '#' && |name| > 2
  }

  predicate AllowedBeforeRegister(command: string) {
    || command == "CAP" || command == "cap"
    || command == "PASS" || command == "pass"
    || command == "NICK" || command == "nick"
    || command == "USER" || command == "user"
    || command == "QUIT" || command == "quit"
    || command == "PING" || command == "ping"
    || command == "INFO" || command == "info"
    || command == "DEBUGCHANNEL" || command == "debugchannel"
  }

  function Upper(c: char): char {
    if 'a' <= c <= 'z' then (c as int - 32) as char else c
  }

  function ToUpper(s: string): (u: string)
    ensures |u| == |s| && forall i :: 0 <= i < |s| ==> u[i] == Upper(s[i])
  {
    seq(|s|, i requires 0 <= i < |s| => Upper(s[i]))
  }

  // ----- the limit argument: std::atoi, then size_t -----

  const SIZE_T := 0x1_0000_0000_0000_0000

  predicate Space(c: char) {
    c == ' ' || '\t' <= c <= '\r'
  }

  function AtoiDigits(s: string, acc: nat): nat {
    if s != "" && '0' <= s[0] <= '9' then AtoiDigits(s[1..], 10 * acc + (s[0] as int - '0' as int)) else acc
  }

  function Atoi(s: string): int {
    if s == "" then 0
    else if Space(s[0]) then Atoi(s[1..])
    else if s[0] == '-' then -(AtoiDigits(s[1..], 0) as int)
    else if s[0] == '+' then AtoiDigits(s[1..], 0)
    else AtoiDigits(s, 0)
  }

  /** A negative number wraps around and makes a limit that is never reached. */
  function LimitOf(s: string): nat {
    Atoi(s) % SIZE_T
  }

  // ----- nicknames -----

  predicate Holds(clients: map<int, Client>, fd: int, nick: string) {
    fd in clients && clients[fd].nick == nick
  }

  ghost predicate NickExists(clients: map<int, Client>, nick: string) {
    exists fd :: Holds(clients, fd, nick)
  }

  /** A set with an element has a lowest one; `below` bounds where it can be. */
  lemma {:induction false} LowestIn(s: set<int>, x: int, below: set<int>)
    requires x in s && forall y :: y in s && y < x ==> y in below
    ensures exists low :: low in s && forall y :: y in s ==> low <= y
    decreases |below|
  {
    if lower :| lower in s && lower < x {
      LowestIn(s, lower, below - {lower});
    }
  }

  lemma LowestHolder(clients: map<int, Client>, nick: string, fd: int)
    requires Holds(clients, fd, nick)
    ensures exists low :: Holds(clients, low, nick) && forall x :: Holds(clients, x, nick) ==> low <= x
  {
    var holders := set x | x in clients && Holds(clients, x, nick);
    LowestIn(holders, fd, holders);
    var low :| low in holders && forall y :: y in holders ==> low <= y;
    assert forall x :: Holds(clients, x, nick) ==> x in holders;
  }

  /** The client with this nickname; with several, the one of the lowest descriptor. */
  ghost function Lookup(clients: map<int, Client>, nick: string): (found: Option<int>)
    ensures found.None? <==> !NickExists(clients, nick)
    ensures found.Some? ==>
      Holds(clients, found.value, nick) && forall fd :: Holds(clients, fd, nick) ==> found.value <= fd
  {
    if NickExists(clients, nick) then
      var fd :| Holds(clients, fd, nick);
      LowestHolder(clients, nick, fd);
      var low :| Holds(clients, low, nick) && forall x :: Holds(clients, x, nick) ==> low <= x;
      Some(low)
    else None
  }

  // ----- registration -----

  function Registered(c: Client): Client {
    if !c.registered && c.authorized && c.nick != "" && c.user != "" then c.(registered := true) else c
  }

  ghost function SetClient(s: State, fd: int, c: Client): State {
    s.(clients := s.clients[fd := c])
  }

  ghost function Pass(s: State, fd: int, params: seq<string>): (State, Outcome)
    requires fd in s.clients
  {
    var c := s.clients[fd];
    if c.registered then (s, Refused(ERR_ALREADYREGISTRED))
    else if |params| < 1 then (s, Refused(ERR_NEEDMOREPARAMS))
    else if params[0] != s.password then (s, Refused(ERR_PASSWDMISMATCH))
    else (SetClient(s, fd, Registered(c.(authorized := true))), Done)
  }

  ghost function Nick(s: State, fd: int, params: seq<string>): (State, Outcome)
    requires fd in s.clients
  {
    var c := s.clients[fd];
    if |params| < 1 then (s, Refused(ERR_NONICKNAMEGIVEN))
    else if !ValidNick(params[0]) then (s, Refused(ERR_ERRONEUSNICKNAME))
    else if NickExists(s.clients, params[0]) && c.nick != params[0] then (s, Refused(ERR_NICKNAMEINUSE))
    else (SetClient(s, fd, Registered(c.(nick := params[0]))), Done)
  }

  ghost function User(s: State, fd: int, params: seq<string>): (State, Outcome)
    requires fd in s.clients
  {
    var c := s.clients[fd];
    if c.registered then (s, Refused(ERR_ALREADYREGISTRED))
    else if |params| < 4 then (s, Refused(ERR_NEEDMOREPARAMS))
    else (SetClient(s, fd, Registered(c.(user := params[0], realName := params[3]))), Done)
  }

  // ----- channels -----

  function NewChannel(name: string): Channel {
    Channel(name, {}, {}, {}, false, false, "", 0)
  }

  ghost function SetChannel(s: State, name: string, ch: Channel): State {
    s.(channels := s.channels[name := ch])
  }

  /** Stores a channel that lost members, or drops it when nobody is left. */
  ghost function KeepOrDrop(s: State, name: string, ch: Channel): State {
    if ch.members == {} then s.(channels := s.channels - {name}) else SetChannel(s, name, ch)
  }

  /** Admission to an existing channel. An invite is spent before key and limit are looked at. */
  function Admit(ch: Channel, fd: int, params: seq<string>): (Channel, Outcome) {
    if fd in ch.members then (ch, Ignored)
    else if ch.inviteOnly && fd !in ch.invited then (ch, Refused(ERR_INVITEONLYCHAN))
    else
      var spent := if ch.inviteOnly then ch.(invited := ch.invited - {fd}) else ch;
      if ch.key != "" && (|params| < 2 || params[1] != ch.key) then (spent, Refused(ERR_BADCHANNELKEY))
      else if ch.limit > 0 && |ch.members| >= ch.limit then (spent, Refused(ERR_CHANNELISFULL))
      else
        var joined := spent.(members := spent.members + {fd});
        (if |joined.members| == 1 then joined.(operators := joined.operators + {fd}) else joined, Done)
  }

  ghost function Join(s: State, fd: int, params: seq<string>): (State, Outcome)
    requires fd in s.clients
  {
    if |params| < 1 then (s, Refused(ERR_NEEDMOREPARAMS))
    else if !ValidChannelName(params[0]) then (s, Refused(ERR_NOSUCHCHANNEL))
    else
      var name := params[0];
      var ch := if name in s.channels then s.channels[name] else NewChannel(name);
      var (after, outcome) := Admit(ch, fd, params);
      (SetChannel(s, name, after), outcome)
  }

  ghost function Part(s: State, fd: int, params: seq<string>): (State, Outcome)
    requires fd in s.clients
  {
    if |params| < 1 then (s, Refused(ERR_NEEDMOREPARAMS))
    else if params[0] !in s.channels then (s, Refused(ERR_NOSUCHCHANNEL))
    else
      var ch := s.channels[params[0]];
      if fd !in ch.members then (s, Refused(ERR_NOTONCHANNEL))
      else
        var left := ch.(members := ch.members - {fd}, operators := ch.operators - {fd}, invited := ch.invited - {fd});
        (KeepOrDrop(s, params[0], left), Done)
  }

  ghost function Invite(s: State, fd: int, params: seq<string>): (State, Outcome)
    requires fd in s.clients
  {
    if |params| < 2 then (s, Refused(ERR_NEEDMOREPARAMS))
    else
      var target := Lookup(s.clients, params[0]);
      if target.None? then (s, Refused(ERR_NOSUCHNICK))
      else if params[1] !in s.channels then (s, Refused(ERR_NOSUCHCHANNEL))
      else
        var ch := s.channels[params[1]];
        if fd !in ch.members then (s, Refused(ERR_NOTONCHANNEL))
        else if fd !in ch.operators then (s, Refused(ERR_CHANOPRIVSNEEDED))
        else if target.value in ch.members then (s, Refused(ERR_USERONCHANNEL))
        else (SetChannel(s, params[1], ch.(invited := ch.invited + {target.value})), Done)
  }

  ghost function Kick(s: State, fd: int, params: seq<string>): (State, Outcome)
    requires fd in s.clients
  {
    if |params| < 2 then (s, Refused(ERR_NEEDMOREPARAMS))
    else if params[0] !in s.channels then (s, Refused(ERR_NOSUCHCHANNEL))
    else
      var ch := s.channels[params[0]];
      if fd !in ch.members then (s, Refused(ERR_NOTONCHANNEL))
      else if fd !in ch.operators then (s, Refused(ERR_CHANOPRIVSNEEDED))
      else
        var target := Lookup(s.clients, params[1]);
        if target.None? then (s, Refused(ERR_NOSUCHNICK))
        else if target.value !in ch.members then (s, Refused(ERR_USERNOTINCHANNEL))
        else
          var left := ch.(members := ch.members - {target.value}, operators := ch.operators - {target.value});
          (KeepOrDrop(s, params[0], left), Done)
  }

  datatype Flag =
    | LimitOn | LimitOff | OpOn | OpOff | KeyOn | KeyOff | TopicOn | TopicOff | InviteOn | InviteOff | NoFlag

  function FlagOf(mode: string): Flag {
    if mode == "+l" then LimitOn
    else if mode == "-l" then LimitOff
    else if mode == "+o" then OpOn
    else if mode == "-o" then OpOff
    else if mode == "+k" then KeyOn
    else if mode == "-k" then KeyOff
    else if mode == "+t" then TopicOn
    else if mode == "-t" then TopicOff
    else if mode == "+i" then InviteOn
    else if mode == "-i" then InviteOff
    else NoFlag
  }

  /** The change of a channel by a mode its operator asks for; `target` is whom the third parameter names. */
  function ChangeMode(ch: Channel, flag: Flag, params: seq<string>, target: Option<int>): (Channel, Outcome) {
    match flag
    case LimitOn =>
      if |params| < 3 || LimitOf(params[2]) == 0 then (ch, Refused(ERR_NEEDMOREPARAMS))
      else (ch.(limit := LimitOf(params[2])), Done)
    case LimitOff => (ch.(limit := 0), Done)
    case OpOn =>
      if |params| < 3 then (ch, Refused(ERR_NEEDMOREPARAMS))
      else if target.None? then (ch, Refused(ERR_NOSUCHNICK))
      else if target.value !in ch.members then (ch, Refused(ERR_USERNOTINCHANNEL))
      else (ch.(operators := ch.operators + {target.value}), Done)
    case OpOff =>
      if |params| < 3 then (ch, Refused(ERR_NEEDMOREPARAMS))
      else if target.None? then (ch, Refused(ERR_NOSUCHNICK))
      else if target.value !in ch.members then (ch, Refused(ERR_USERNOTINCHANNEL))
      else (ch.(operators := ch.operators - {target.value}), Done)
    case KeyOn => if |params| < 3 then (ch, Refused(ERR_NEEDMOREPARAMS)) else (ch.(key := params[2]), Done)
    case KeyOff => (ch.(key := ""), Done)
    case TopicOn => (ch.(topicRestricted := true), Done)
    case TopicOff => (ch.(topicRestricted := false), Done)
    case InviteOn => (ch.(inviteOnly := true), Done)
    case InviteOff => (ch.(inviteOnly := false), Done)
    case NoFlag => (ch, Refused(ERR_UNKNOWNMODE))
  }

  ghost function Mode(s: State, fd: int, params: seq<string>): (State, Outcome)
    requires fd in s.clients
  {
    if |params| < 2 then (s, Refused(ERR_NEEDMOREPARAMS))
    else if params[0] !in s.channels then (s, Refused(ERR_NOSUCHCHANNEL))
    else
      var ch := s.channels[params[0]];
      if fd !in ch.members then (s, Refused(ERR_NOTONCHANNEL))
      else if fd !in ch.operators then (s, Refused(ERR_CHANOPRIVSNEEDED))
      else
        var target := if |params| >= 3 then Lookup(s.clients, params[2]) else None;
        var (after, outcome) := ChangeMode(ch, FlagOf(params[1]), params, target);
        (SetChannel(s, params[0], after), outcome)
  }

  // ----- events -----

  datatype Event =
    | Accept(fd: int)
    | Disconnect(fd: int)
    | Line(fd: int, command: string, params: seq<string>)

  /** The system hands out descriptors that are not in use, and only connected clients send or go. */
  ghost predicate Enabled(s: State, e: Event) {
    if e.Accept? then e.fd !in s.clients else e.fd in s.clients
  }

  /** The handler a command is dispatched to. */
  datatype Verb = PASS | NICK | USER | JOIN | PART | INVITE | KICK | MODE | STATELESS | UNKNOWN

  /** The command table, looked up in upper case. The stateless commands change neither
      clients nor membership nor authority. */
  function VerbOf(upper: string): Verb {
    if upper == "PASS" then PASS
    else if upper == "NICK" then NICK
    else if upper == "USER" then USER
    else if upper == "JOIN" then JOIN
    else if upper == "PART" then PART
    else if upper == "INVITE" then INVITE
    else if upper == "KICK" then KICK
    else if upper == "MODE" then MODE
    else if upper in ["CAP", "TOPIC", "PRIVMSG", "PING", "INFO", "DEBUGCHANNEL"] then STATELESS
    else UNKNOWN
  }

  ghost function Obey(s: State, fd: int, verb: Verb, params: seq<string>): (State, Outcome)
    requires fd in s.clients
  {
    match verb
    case PASS => Pass(s, fd, params)
    case NICK => Nick(s, fd, params)
    case USER => User(s, fd, params)
    case JOIN => Join(s, fd, params)
    case PART => Part(s, fd, params)
    case INVITE => Invite(s, fd, params)
    case KICK => Kick(s, fd, params)
    case MODE => Mode(s, fd, params)
    case STATELESS => (s, Elsewhere)
    case UNKNOWN => (s, Refused(ERR_UNKNOWNCOMMAND))
  }

  /** A client that is not registered may use only some commands, spelled all in
      capitals or all in small letters. */
  predicate MayUse(c: Client, command: string) {
    c.registered || AllowedBeforeRegister(command)
  }

  ghost function Dispatch(s: State, fd: int, command: string, params: seq<string>): (State, Outcome)
    requires fd in s.clients
  {
    if MayUse(s.clients[fd], command) then Obey(s, fd, VerbOf(ToUpper(command)), params)
    else (s, Refused(ERR_NOTREGISTERED))
  }

  /** Without registration no command that touches a channel is carried out. */
  lemma ChannelsNeedRegistration(c: Client, command: string)
    requires MayUse(c, command) && !c.registered
    ensures VerbOf(ToUpper(command)) in {PASS, NICK, USER, STATELESS, UNKNOWN}
  {
    var u := ToUpper(command);
    assert |u| == |command| && u[0] == Upper(command[0]) && u[1] == Upper(command[1]);
  }

  lemma UpperTwice(s: string)
    ensures ToUpper(ToUpper(s)) == ToUpper(s)
  {
  }

  lemma UpperIs(s: string, u: string)
    requires |u| == |s| && forall i :: 0 <= i < |s| ==> Upper(s[i]) == u[i]
    ensures ToUpper(s) == u
  {
  }

  /** Upper-casing keeps an allowed word allowed. */
  lemma UpperStaysAllowed(command: string)
    requires AllowedBeforeRegister(command)
    ensures AllowedBeforeRegister(ToUpper(command))
  {
    var words := ["CAP", "PASS", "NICK", "USER", "QUIT", "PING", "INFO", "DEBUGCHANNEL"];
    var small := ["cap", "pass", "nick", "user", "quit", "ping", "info", "debugchannel"];
    if command in words {
      UpperIs(command, command);
    } else {
      assert command in small;
      var i :| 0 <= i < |small| && command == small[i];
      UpperIs(small[i], words[i]);
    }
  }

  /** The command table ignores case, the gate before it does not: how a command is
      spelled makes no difference exactly for registered clients and for words that
      the gate lets through as they are or not even in capitals. */
  lemma SpellingIsIgnoredIff(s: State, fd: int, command: string, params: seq<string>)
    requires fd in s.clients
    ensures Dispatch(s, fd, command, params) == Dispatch(s, fd, ToUpper(command), params) <==>
      s.clients[fd].registered || (AllowedBeforeRegister(ToUpper(command)) ==> AllowedBeforeRegister(command))
  {
    UpperTwice(command);
    if AllowedBeforeRegister(command) {
      UpperStaysAllowed(command);
    }
    if AllowedBeforeRegister(ToUpper(command)) {
      NeverUnregistered(s, fd, ToUpper(command), params);
    }
  }

  lemma NeverUnregistered(s: State, fd: int, upper: string, params: seq<string>)
    requires fd in s.clients && AllowedBeforeRegister(upper) && ToUpper(upper) == upper
    ensures Dispatch(s, fd, upper, params).1 != Refused(ERR_NOTREGISTERED)
  {
    if !s.clients[fd].registered {
      ChannelsNeedRegistration(s.clients[fd], upper);
    }
  }

  /** One event and its outcome. A disconnect removes the client and nothing else:
      channels keep the descriptor. */
  ghost function StepWithOutcome(s: State, e: Event): (State, Outcome)
    requires Enabled(s, e)
  {
    match e
    case Accept(fd) => (SetClient(s, fd, Client("", "", "", false, false)), Done)
    case Disconnect(fd) => (s.(clients := s.clients - {fd}), Done)
    case Line(fd, command, params) => Dispatch(s, fd, command, params)
  }

  ghost function Step(s: State, e: Event): State
    requires Enabled(s, e)
  {
    StepWithOutcome(s, e).0
  }

  // ----- runs -----

  /** The state after a run of the server, which starts without clients and
      channels; None when some event could not happen. */
  ghost function RunOf(password: string, es: seq<Event>): Option<State> {
    if es == [] then Some(State(password, map[], map[]))
    else
      var before := RunOf(password, es[..|es| - 1]);
      if before.Some? && Enabled(before.value, es[|es| - 1])
      then Some(Step(before.value, es[|es| - 1]))
      else None
  }

  ghost predicate IsRun(password: string, es: seq<Event>) {
    RunOf(password, es).Some?
  }

  ghost function After(password: string, es: seq<Event>): State
    requires IsRun(password, es)
  {
    RunOf(password, es).value
  }

  /** The last event of a run, and the run before it. */
  lemma LastEvent(password: string, es: seq<Event>)
    requires IsRun(password, es) && es != []
    ensures IsRun(password, es[..|es| - 1])
    ensures Enabled(After(password, es[..|es| - 1]), es[|es| - 1])
    ensures After(password, es) == Step(After(password, es[..|es| - 1]), es[|es| - 1])
  {
  }

  lemma {:induction false} PrefixOfRun(password: string, es: seq<Event>, k: nat)
    requires IsRun(password, es) && k <= |es|
    ensures IsRun(password, es[..k])
  {
    if k < |es| {
      LastEvent(password, es);
      PrefixOfRun(password, es[..|es| - 1], k);
      assert es[..|es| - 1][..k] == es[..k];
    } else {
      assert es[..k] == es;
    }
  }

  /** A run goes on with any event that can happen. */
  lemma RunGoesOn(password: string, es: seq<Event>, e: Event)
    requires IsRun(password, es) && Enabled(After(password, es), e)
    ensures IsRun(password, es + [e]) && After(password, es + [e]) == Step(After(password, es), e)
  {
    assert (es + [e])[..|es|] == es;
  }
}
