/** The server object with its client and channel objects, changed in place by the
    command handlers (merged_irc/cmds and merged_irc/srcs). Every method is proved
    to do to the object what the functions of IrcState say. */
module IrcServer {
  import opened Common
  import opened IrcState
  import opened IrcInvariants

  class Client {
    const fd: int
    var nick: string
    var user: string
    var realName: string
    var authorized: bool
    var registered: bool

    ghost function View(): IrcState.Client
      reads this
    {
      IrcState.Client(nick, user, realName, authorized, registered)
    }

    constructor (fd: int)
      ensures this.fd == fd && View() == IrcState.Client("", "", "", false, false)
    {
      this.fd := fd;
      nick, user, realName := "", "", "";
      authorized, registered := false, false;
    }

    predicate CanRegister()
      reads this
    {
      authorized && nick != "" && user != ""
    }

    /** Registers a client that has everything it takes; says whether it did. */
    method Register() returns (done: bool)
      modifies this
      ensures View() == Registered(old(View())) && (done <==> !old(registered) && registered)
    {
      if registered {
        return false;
      }
      if !CanRegister() {
        return false;
      }
      registered := true;
      return true;
    }

    method Authorize()
      modifies this
      ensures View() == Registered(old(View()).(authorized := true))
    {
      authorized := true;
      var _ := Register();
    }

    method Rename(newNick: string)
      modifies this
      ensures View() == Registered(old(View()).(nick := newNick))
    {
      nick := newNick;
      var _ := Register();
    }

    method Describe(newUser: string, newRealName: string)
      modifies this
      ensures View() == Registered(old(View()).(user := newUser, realName := newRealName))
    {
      user := newUser;
      realName := newRealName;
      var _ := Register();
    }
  }

  class Channel {
    var name: string
    var members: set<int>
    var operators: set<int>
    var inviteOnly: bool
    var topicRestricted: bool
    var key: string
    var invited: set<int>
    var userLimit: nat

    ghost function View(): IrcState.Channel
      reads this
    {
      IrcState.Channel(name, members, operators, invited, inviteOnly, topicRestricted, key, userLimit)
    }

    constructor (name: string)
      ensures View() == NewChannel(name)
    {
      this.name := name;
      members, operators, invited := {}, {}, {};
      inviteOnly, topicRestricted := false, false;
      key, userLimit := "", 0;
    }

    method AddMember(fd: int)
      modifies this
      ensures View() == old(View()).(members := old(members) + {fd})
    {
      members := members + {fd};
    }

    method RemoveMember(fd: int)
      modifies this
      ensures View() == old(View()).(members := old(members) - {fd})
    {
      members := members - {fd};
    }

    method AddOperator(fd: int)
      modifies this
      ensures View() == old(View()).(operators := old(operators) + {fd})
    {
      operators := operators + {fd};
    }

    method RemoveOperator(fd: int)
      modifies this
      ensures View() == old(View()).(operators := old(operators) - {fd})
    {
      operators := operators - {fd};
    }

    method InviteClient(fd: int)
      modifies this
      ensures View() == old(View()).(invited := old(invited) + {fd})
    {
      invited := invited + {fd};
    }

    method RemoveInvite(fd: int)
      modifies this
      ensures View() == old(View()).(invited := old(invited) - {fd})
    {
      invited := invited - {fd};
    }

    /** What PART and KICK do to the channel; only PART also withdraws an invite. */
    method Leaves(fd: int, withInvite: bool)
      modifies this
      ensures View() == old(View()).(members := old(members) - {fd}, operators := old(operators) - {fd},
                                     invited := if withInvite then old(invited) - {fd} else old(invited))
    {
      RemoveMember(fd);
      RemoveOperator(fd);
      if withInvite {
        RemoveInvite(fd);
      }
    }

    /** The part of JOIN that works on the channel alone. */
    method Admits(fd: int, params: seq<string>) returns (outcome: Outcome)
      modifies this
      ensures View() == Admit(old(View()), fd, params).0 && outcome == Admit(old(View()), fd, params).1
    {
      if fd in members {
        return Ignored;
      }
      if inviteOnly {
        if fd !in invited {
          return Refused(ERR_INVITEONLYCHAN);
        }
        RemoveInvite(fd);
      }
      if key != "" {
        if |params| < 2 || params[1] != key {
          return Refused(ERR_BADCHANNELKEY);
        }
      }
      if userLimit > 0 && |members| >= userLimit {
        return Refused(ERR_CHANNELISFULL);
      }
      AddMember(fd);
      if |members| == 1 {
        AddOperator(fd);
      }
      return Done;
    }
  }

  class Server {
    const password: string
    var clients: map<int, Client>
    var channels: map<string, Channel>

    /** Client objects know their descriptor, and no channel object is stored twice. */
    ghost predicate Valid()
      reads this, clients.Values
    {
      && (forall fd :: fd in clients ==> clients[fd].fd == fd)
      && (forall a, b :: a in channels && b in channels && channels[a] == channels[b] ==> a == b)
    }

    ghost function ClientsView(): map<int, IrcState.Client>
      reads this`clients, clients.Values
    {
      map fd | fd in clients :: clients[fd].View()
    }

    ghost function ChannelsView(): map<string, IrcState.Channel>
      reads this`channels, channels.Values
    {
      map name | name in channels :: channels[name].View()
    }

    ghost function View(): State
      reads this, clients.Values, channels.Values
    {
      State(password, ClientsView(), ChannelsView())
    }

    constructor (password: string)
      ensures Valid() && this.password == password && clients == map[] && channels == map[]
    {
      this.password := password;
      clients, channels := map[], map[];
    }

    // ----- lookups -----

    /** Walks the clients in the order of their descriptors. */
    method GetClientByNickname(nick: string) returns (found: Client?)
      requires Valid()
      ensures found == null <==> Lookup(ClientsView(), nick).None?
      ensures found != null ==> Lookup(ClientsView(), nick) == Some(found.fd)
    {
      ghost var view := ClientsView();
      var rest := clients.Keys;
      while true
        invariant rest <= clients.Keys
        invariant forall fd :: fd in clients && fd !in rest ==> !Holds(view, fd, nick)
        decreases |rest|
      {
        if fd :| fd in rest && Lowest(fd, rest) {
          if clients[fd].nick == nick {
            LookupIs(view, nick, fd);
            return clients[fd];
          }
          rest := rest - {fd};
        } else {
          NoLowest(rest);
          return null;
        }
      }
    }

    method NickExistsAlready(nick: string) returns (found: bool)
      requires Valid()
      ensures found <==> NickExists(ClientsView(), nick)
    {
      ghost var view := ClientsView();
      var rest := clients.Keys;
      while true
        invariant rest <= clients.Keys
        invariant forall fd :: fd in clients && fd !in rest ==> !Holds(view, fd, nick)
        decreases |rest|
      {
        if fd :| fd in rest {
          if clients[fd].nick == nick {
            assert Holds(view, fd, nick);
            return true;
          }
          rest := rest - {fd};
        } else {
          return false;
        }
      }
    }

    // ----- what a change of one object does to the whole -----

    lemma OneClientChanged(before: map<int, IrcState.Client>, fd: int)
      requires fd in clients && before.Keys == clients.Keys
      requires forall x :: x in clients && x != fd ==> clients[x].View() == before[x]
      ensures ClientsView() == before[fd := clients[fd].View()]
    {
      var after, expected := ClientsView(), before[fd := clients[fd].View()];
      assert after.Keys == expected.Keys;
      assert forall x :: x in after ==> after[x] == expected[x];
    }

    lemma OneChannelChanged(before: map<string, IrcState.Channel>, name: string)
      requires name in channels && before.Keys + {name} == channels.Keys
      requires forall x :: x in channels && x != name ==> channels[x].View() == before[x]
      ensures ChannelsView() == before[name := channels[name].View()]
    {
      var after, expected := ChannelsView(), before[name := channels[name].View()];
      assert after.Keys == expected.Keys;
      assert forall x :: x in after ==> after[x] == expected[x];
    }

    // ----- clients -----

    method PassCmd(fd: int, params: seq<string>) returns (outcome: Outcome)
      requires Valid() && fd in clients
      modifies clients[fd]
      ensures Valid() && View() == Pass(old(View()), fd, params).0 && outcome == Pass(old(View()), fd, params).1
    {
      ghost var before := ClientsView();
      var client := clients[fd];
      if client.registered {
        return Refused(ERR_ALREADYREGISTRED);
      }
      if |params| < 1 {
        return Refused(ERR_NEEDMOREPARAMS);
      }
      if params[0] != password {
        return Refused(ERR_PASSWDMISMATCH);
      }
      client.Authorize();
      OneClientChanged(before, fd);
      return Done;
    }

    method NickCmd(fd: int, params: seq<string>) returns (outcome: Outcome)
      requires Valid() && fd in clients
      modifies clients[fd]
      ensures Valid() && View() == Nick(old(View()), fd, params).0 && outcome == Nick(old(View()), fd, params).1
    {
      ghost var before := ClientsView();
      var client := clients[fd];
      if |params| < 1 {
        return Refused(ERR_NONICKNAMEGIVEN);
      }
      var newNick := params[0];
      if !ValidNick(newNick) {
        return Refused(ERR_ERRONEUSNICKNAME);
      }
      var taken := NickExistsAlready(newNick);
      if taken && client.nick != newNick {
        return Refused(ERR_NICKNAMEINUSE);
      }
      client.Rename(newNick);
      OneClientChanged(before, fd);
      return Done;
    }

    method UserCmd(fd: int, params: seq<string>) returns (outcome: Outcome)
      requires Valid() && fd in clients
      modifies clients[fd]
      ensures Valid() && View() == User(old(View()), fd, params).0 && outcome == User(old(View()), fd, params).1
    {
      ghost var before := ClientsView();
      var client := clients[fd];
      if client.registered {
        return Refused(ERR_ALREADYREGISTRED);
      }
      if |params| < 4 {
        return Refused(ERR_NEEDMOREPARAMS);
      }
      client.Describe(params[0], params[3]);
      OneClientChanged(before, fd);
      return Done;
    }

    // ----- channels -----

    method JoinCmd(fd: int, params: seq<string>) returns (outcome: Outcome)
      requires Valid() && fd in clients
      modifies this`channels, channels.Values
      ensures Valid() && fresh(channels.Values - old(channels.Values))
      ensures View() == Join(old(View()), fd, params).0 && outcome == Join(old(View()), fd, params).1
    {
      if |params| < 1 {
        return Refused(ERR_NEEDMOREPARAMS);
      }
      var channelName := params[0];
      if !ValidChannelName(channelName) {
        return Refused(ERR_NOSUCHCHANNEL);
      }
      ghost var before := View();
      var _ := FindOrCreate(channelName);
      ghost var found := ChannelsView();
      outcome := AdmitTo(channelName, fd, params);
      JoinIs(before, View(), fd, params, found);
    }

    method AdmitTo(channelName: string, fd: int, params: seq<string>) returns (outcome: Outcome)
      requires Valid() && channelName in channels
      modifies channels[channelName]
      ensures Valid() && ClientsView() == old(ClientsView())
      ensures
        var (after, answer) := Admit(old(ChannelsView())[channelName], fd, params);
        ChannelsView() == old(ChannelsView())[channelName := after] && outcome == answer
    {
      ghost var before := ChannelsView();
      outcome := channels[channelName].Admits(fd, params);
      OneChannelChanged(before, channelName);
    }

    /** The channel of a name, made when there is none. */
    method FindOrCreate(channelName: string) returns (channel: Channel)
      requires Valid()
      modifies this`channels
      ensures Valid() && fresh(channels.Values - old(channels.Values))
      ensures channelName in channels && channels[channelName] == channel
      ensures ClientsView() == old(ClientsView())
      ensures ChannelsView() == old(ChannelsView())[channelName := channel.View()]
      ensures channel.View() ==
        if channelName in old(channels) then old(ChannelsView())[channelName] else NewChannel(channelName)
    {
      ghost var before := ChannelsView();
      if channelName !in channels {
        var created := new Channel(channelName);
        channels := channels[channelName := created];
      }
      channel := channels[channelName];
      OneChannelChanged(before, channelName);
    }

    /** Takes a member out and drops the channel when nobody is left in it. */
    method RemoveFrom(channelName: string, fd: int, withInvite: bool)
      requires Valid() && channelName in channels
      modifies this`channels, channels[channelName]
      ensures Valid() && channels.Values <= old(channels.Values)
      ensures
        var ch := old(channels[channelName].View());
        var left := ch.(members := ch.members - {fd}, operators := ch.operators - {fd},
                        invited := if withInvite then ch.invited - {fd} else ch.invited);
        View() == KeepOrDrop(old(View()), channelName, left)
    {
      ghost var before := ChannelsView();
      var channel := channels[channelName];
      channel.Leaves(fd, withInvite);
      OneChannelChanged(before, channelName);
      if channel.members == {} {
        Drop(channelName);
      }
      KeepOrDropIs(old(View()), View(), channelName, channel.View());
    }

    method Drop(channelName: string)
      requires Valid()
      modifies this`channels
      ensures Valid() && channels.Values <= old(channels.Values)
      ensures ChannelsView() == old(ChannelsView()) - {channelName}
    {
      channels := channels - {channelName};
      assert ChannelsView() == old(ChannelsView()) - {channelName};
    }

    method PartCmd(fd: int, params: seq<string>) returns (outcome: Outcome)
      requires Valid() && fd in clients
      modifies this`channels, channels.Values
      ensures Valid() && channels.Values <= old(channels.Values)
      ensures View() == Part(old(View()), fd, params).0 && outcome == Part(old(View()), fd, params).1
    {
      if |params| < 1 {
        return Refused(ERR_NEEDMOREPARAMS);
      }
      var channelName := params[0];
      if channelName !in channels {
        return Refused(ERR_NOSUCHCHANNEL);
      }
      var channel := channels[channelName];
      if fd !in channel.members {
        return Refused(ERR_NOTONCHANNEL);
      }
      RemoveFrom(channelName, fd, true);
      return Done;
    }

    method InviteCmd(fd: int, params: seq<string>) returns (outcome: Outcome)
      requires Valid() && fd in clients
      modifies channels.Values
      ensures Valid() && View() == Invite(old(View()), fd, params).0 && outcome == Invite(old(View()), fd, params).1
    {
      if |params| < 2 {
        return Refused(ERR_NEEDMOREPARAMS);
      }
      var nick, channelName := params[0], params[1];
      var target := GetClientByNickname(nick);
      if target == null {
        return Refused(ERR_NOSUCHNICK);
      }
      if channelName !in channels {
        return Refused(ERR_NOSUCHCHANNEL);
      }
      ghost var before := ChannelsView();
      var channel := channels[channelName];
      if fd !in channel.members {
        return Refused(ERR_NOTONCHANNEL);
      }
      if fd !in channel.operators {
        return Refused(ERR_CHANOPRIVSNEEDED);
      }
      if target.fd in channel.members {
        return Refused(ERR_USERONCHANNEL);
      }
      channel.InviteClient(target.fd);
      OneChannelChanged(before, channelName);
      return Done;
    }

    method KickCmd(fd: int, params: seq<string>) returns (outcome: Outcome)
      requires Valid() && fd in clients
      modifies this`channels, channels.Values
      ensures Valid() && channels.Values <= old(channels.Values)
      ensures View() == Kick(old(View()), fd, params).0 && outcome == Kick(old(View()), fd, params).1
    {
      if |params| < 2 {
        return Refused(ERR_NEEDMOREPARAMS);
      }
      var channelName, targetNick := params[0], params[1];
      if channelName !in channels {
        return Refused(ERR_NOSUCHCHANNEL);
      }
      var channel := channels[channelName];
      if fd !in channel.members {
        return Refused(ERR_NOTONCHANNEL);
      }
      if fd !in channel.operators {
        return Refused(ERR_CHANOPRIVSNEEDED);
      }
      var target := GetClientByNickname(targetNick);
      if target == null {
        return Refused(ERR_NOSUCHNICK);
      }
      if target.fd !in channel.members {
        return Refused(ERR_USERNOTINCHANNEL);
      }
      RemoveFrom(channelName, target.fd, false);
      return Done;
    }

    method ModeCmd(fd: int, params: seq<string>) returns (outcome: Outcome)
      requires Valid() && fd in clients
      modifies channels.Values
      ensures Valid() && View() == Mode(old(View()), fd, params).0 && outcome == Mode(old(View()), fd, params).1
    {
      if |params| < 2 {
        return Refused(ERR_NEEDMOREPARAMS);
      }
      var channelName, mode := params[0], params[1];
      if channelName !in channels {
        return Refused(ERR_NOSUCHCHANNEL);
      }
      ghost var before := ChannelsView();
      var channel := channels[channelName];
      if fd !in channel.members {
        return Refused(ERR_NOTONCHANNEL);
      }
      if fd !in channel.operators {
        return Refused(ERR_CHANOPRIVSNEEDED);
      }
      outcome := ChangeChannelMode(channel, FlagOf(mode), params);
      OneChannelChanged(before, channelName);
    }

    /** The branches of MODE, one for each flag. */
    method ChangeChannelMode(channel: Channel, flag: Flag, params: seq<string>) returns (outcome: Outcome)
      requires Valid()
      modifies channel
      ensures
        var target := if |params| >= 3 then Lookup(ClientsView(), params[2]) else None;
        (channel.View(), outcome) == ChangeMode(old(channel.View()), flag, params, target)
    {
      match flag
      case LimitOn =>
        if |params| < 3 {
          return Refused(ERR_NEEDMOREPARAMS);
        }
        var limit := LimitOf(params[2]);
        if limit <= 0 {
          return Refused(ERR_NEEDMOREPARAMS);
        }
        channel.userLimit := limit;
        return Done;
      case LimitOff =>
        channel.userLimit := 0;
        return Done;
      case OpOn =>
        outcome := ChangeOperator(channel, true, params);
      case OpOff =>
        outcome := ChangeOperator(channel, false, params);
      case KeyOn =>
        if |params| < 3 {
          return Refused(ERR_NEEDMOREPARAMS);
        }
        channel.key := params[2];
        return Done;
      case KeyOff =>
        channel.key := "";
        return Done;
      case TopicOn =>
        channel.topicRestricted := true;
        return Done;
      case TopicOff =>
        channel.topicRestricted := false;
        return Done;
      case InviteOn =>
        channel.inviteOnly := true;
        return Done;
      case InviteOff =>
        channel.inviteOnly := false;
        return Done;
      case NoFlag =>
        return Refused(ERR_UNKNOWNMODE);
    }

    method ChangeOperator(channel: Channel, grant: bool, params: seq<string>) returns (outcome: Outcome)
      requires Valid()
      modifies channel
      ensures
        var target := if |params| >= 3 then Lookup(ClientsView(), params[2]) else None;
        (channel.View(), outcome) == ChangeMode(old(channel.View()), if grant then OpOn else OpOff, params, target)
    {
      if |params| < 3 {
        return Refused(ERR_NEEDMOREPARAMS);
      }
      var target := GetClientByNickname(params[2]);
      if target == null {
        return Refused(ERR_NOSUCHNICK);
      }
      if target.fd !in channel.members {
        return Refused(ERR_USERNOTINCHANNEL);
      }
      ghost var view := ClientsView();
      if grant {
        channel.AddOperator(target.fd);
      } else {
        channel.RemoveOperator(target.fd);
      }
      assert ClientsView() == view;
      return Done;
    }

    // ----- events -----

    method CommandDispatcher(fd: int, command: string, params: seq<string>) returns (outcome: Outcome)
      requires Valid() && fd in clients
      modifies this`channels, clients[fd], channels.Values
      ensures Valid() && fresh(channels.Values - old(channels.Values))
      ensures View() == Dispatch(old(View()), fd, command, params).0
      ensures outcome == Dispatch(old(View()), fd, command, params).1
    {
      var client := clients[fd];
      if !client.registered {
        if !AllowedBeforeRegister(command) {
          return Refused(ERR_NOTREGISTERED);
        }
      }
      outcome := Handle(fd, VerbOf(ToUpper(command)), params);
    }

    /** The call through the command table. */
    method Handle(fd: int, verb: Verb, params: seq<string>) returns (outcome: Outcome)
      requires Valid() && fd in clients
      modifies this`channels, clients[fd], channels.Values
      ensures Valid() && fresh(channels.Values - old(channels.Values))
      ensures View() == Obey(old(View()), fd, verb, params).0 && outcome == Obey(old(View()), fd, verb, params).1
    {
      match verb
      case PASS => outcome := PassCmd(fd, params);
      case NICK => outcome := NickCmd(fd, params);
      case USER => outcome := UserCmd(fd, params);
      case JOIN => outcome := JoinCmd(fd, params);
      case PART => outcome := PartCmd(fd, params);
      case INVITE => outcome := InviteCmd(fd, params);
      case KICK => outcome := KickCmd(fd, params);
      case MODE => outcome := ModeCmd(fd, params);
      case STATELESS => outcome := Elsewhere;
      case UNKNOWN => outcome := Refused(ERR_UNKNOWNCOMMAND);
    }

    method AcceptConnection(fd: int)
      requires Valid() && fd !in clients
      modifies this`clients
      ensures Valid() && fresh(clients.Values - old(clients.Values))
      ensures View() == Step(old(View()), Accept(fd))
    {
      var user := new Client(fd);
      clients := clients[fd := user];
      assert ClientsView() == old(ClientsView())[fd := user.View()];
      assert ChannelsView() == old(ChannelsView());
    }

    /** Forgets the client; channels are not told. */
    method RemoveClient(fd: int)
      requires Valid()
      modifies this`clients
      ensures Valid() && clients.Values <= old(clients.Values)
      ensures View() == old(View()).(clients := old(View()).clients - {fd})
    {
      if fd in clients {
        clients := clients - {fd};
      }
      assert ClientsView() == old(ClientsView()) - {fd};
      assert ChannelsView() == old(ChannelsView());
    }

    method Serve(e: Event) returns (outcome: Outcome)
      requires Valid() && Enabled(View(), e)
      modifies this`clients, this`channels, clients.Values, channels.Values
      ensures Valid()
      ensures fresh(clients.Values - old(clients.Values)) && fresh(channels.Values - old(channels.Values))
      ensures View() == StepWithOutcome(old(View()), e).0 && outcome == StepWithOutcome(old(View()), e).1
    {
      match e
      case Accept(fd) =>
        AcceptConnection(fd);
        outcome := Done;
      case Disconnect(fd) =>
        RemoveClient(fd);
        outcome := Done;
      case Line(fd, command, params) =>
        outcome := CommandDispatcher(fd, command, params);
    }
  }

  /** A server that serves a whole run ends in the state of that run, with every invariant. */
  method ServeRun(password: string, es: seq<Event>) returns (server: Server)
    requires IsRun(password, es)
    ensures fresh(server) && server.Valid()
    ensures server.View() == After(password, es) && Inv(server.View())
  {
    server := new Server(password);
    var i := 0;
    while i < |es|
      invariant 0 <= i <= |es| && server.Valid()
      invariant fresh(server) && fresh(server.clients.Values) && fresh(server.channels.Values)
      invariant IsRun(password, es[..i]) && server.View() == After(password, es[..i])
    {
      PrefixOfRun(password, es, i + 1);
      LastEvent(password, es[..i + 1]);
      assert es[..i + 1][..i] == es[..i];
      var _ := server.Serve(es[i]);
      i := i + 1;
    }
    assert es[..i] == es;
    ReachableStatesAreOk(password, es);
  }

  /** Making the channel and admitting to it are the two halves of JOIN. */
  lemma JoinIs(s: State, t: State, fd: int, params: seq<string>, found: map<string, IrcState.Channel>)
    requires fd in s.clients && |params| >= 1 && ValidChannelName(params[0])
    requires
      found == s.channels[params[0] := if params[0] in s.channels then s.channels[params[0]] else NewChannel(params[0])]
    requires t.channels == found[params[0] := Admit(found[params[0]], fd, params).0]
    requires t.clients == s.clients && t.password == s.password
    ensures t == Join(s, fd, params).0 && Admit(found[params[0]], fd, params).1 == Join(s, fd, params).1
  {
    var after := Admit(found[params[0]], fd, params).0;
    assert found[params[0] := after] == s.channels[params[0] := after];
  }

  /** Storing the shrunk channel and then dropping it when it is empty. */
  lemma KeepOrDropIs(s: State, t: State, name: string, left: IrcState.Channel)
    requires t.clients == s.clients && t.password == s.password
    requires t.channels == if left.members == {} then s.channels[name := left] - {name} else s.channels[name := left]
    ensures t == KeepOrDrop(s, name, left)
  {
    assert s.channels[name := left] - {name} == s.channels - {name};
  }

  lemma LookupIs(clients: map<int, IrcState.Client>, nick: string, fd: int)
    requires Holds(clients, fd, nick) && forall x :: Holds(clients, x, nick) ==> fd <= x
    ensures Lookup(clients, nick) == Some(fd)
  {
  }

  predicate Lowest(low: int, s: set<int>) {
    forall y :: y in s ==> low <= y
  }

  lemma NoLowest(s: set<int>)
    requires !exists low :: low in s && Lowest(low, s)
    ensures forall x :: x !in s
  {
    forall x | x in s ensures false {
      LowestIn(s, x, s);
    }
  }
}
