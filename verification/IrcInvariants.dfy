/** What every reachable state of the server keeps, and what single steps do to
    membership and limits. */
module IrcInvariants {
  import opened Common
  import opened IrcState

  /** A channel is stored under its own valid name, is never empty, and has only
      members for operators. */
  ghost predicate ChannelOk(name: string, ch: Channel) {
    && ch.name == name && ValidChannelName(name)
    && ch.members != {}
    && ch.operators <= ch.members
  }

  ghost predicate ChannelsOk(s: State) {
    forall name :: name in s.channels ==> ChannelOk(name, s.channels[name])
  }

  /** Two clients share at most the empty nickname. */
  ghost predicate NicksUnique(s: State) {
    forall a, b ::
      a in s.clients && b in s.clients && s.clients[a].nick == s.clients[b].nick && s.clients[a].nick != "" ==>
      a == b
  }

  /** The authorized clients with a nickname and a user name are exactly the registered ones. */
  ghost predicate ClientOk(c: Client) {
    && (c.registered <==> c.authorized && c.nick != "" && c.user != "")
    && (c.nick != "" ==> ValidNick(c.nick))
  }

  ghost predicate ClientsOk(s: State) {
    forall fd :: fd in s.clients ==> ClientOk(s.clients[fd])
  }

  ghost predicate Inv(s: State) {
    ChannelsOk(s) && NicksUnique(s) && ClientsOk(s)
  }

  // ----- every step keeps the invariant -----

  lemma SetChannelKeeps(s: State, name: string, ch: Channel)
    requires Inv(s) && ChannelOk(name, ch)
    ensures Inv(SetChannel(s, name, ch))
  {
  }

  lemma SetClientKeeps(s: State, fd: int, c: Client)
    requires Inv(s) && ClientOk(c)
    requires c.nick == "" || forall x :: Holds(s.clients, x, c.nick) ==> x == fd
    ensures Inv(SetClient(s, fd, c))
  {
    var t := SetClient(s, fd, c);
    forall a, b | a in t.clients && b in t.clients && t.clients[a].nick == t.clients[b].nick && t.clients[a].nick != ""
      ensures a == b
    {
      assert b == fd || s.clients[b].nick != c.nick || c.nick == "" || Holds(s.clients, b, c.nick);
      assert a == fd || s.clients[a].nick != c.nick || c.nick == "" || Holds(s.clients, a, c.nick);
    }
  }

  lemma OwnNick(s: State, fd: int)
    requires NicksUnique(s) && fd in s.clients && s.clients[fd].nick != ""
    ensures forall x :: Holds(s.clients, x, s.clients[fd].nick) ==> x == fd
  {
  }

  lemma PassKeeps(s: State, fd: int, params: seq<string>)
    requires Inv(s) && fd in s.clients
    ensures Inv(Pass(s, fd, params).0)
  {
    var c := s.clients[fd];
    if c.nick != "" { OwnNick(s, fd); }
    if Pass(s, fd, params).1 == Done {
      SetClientKeeps(s, fd, Registered(c.(authorized := true)));
    }
  }

  lemma UserKeeps(s: State, fd: int, params: seq<string>)
    requires Inv(s) && fd in s.clients
    ensures Inv(User(s, fd, params).0)
  {
    var c := s.clients[fd];
    if c.nick != "" { OwnNick(s, fd); }
    if User(s, fd, params).1 == Done {
      SetClientKeeps(s, fd, Registered(c.(user := params[0], realName := params[3])));
    }
  }

  lemma NickKeeps(s: State, fd: int, params: seq<string>)
    requires Inv(s) && fd in s.clients
    ensures Inv(Nick(s, fd, params).0)
  {
    var c := s.clients[fd];
    if c.nick != "" { OwnNick(s, fd); }
    if Nick(s, fd, params).1 == Done {
      SetClientKeeps(s, fd, Registered(c.(nick := params[0])));
    }
  }

  /** Admission makes an existing channel larger at most, and a new channel non-empty. */
  lemma AdmitKeeps(name: string, ch: Channel, fd: int, params: seq<string>)
    requires (ch == NewChannel(name) && ValidChannelName(name)) || ChannelOk(name, ch)
    ensures ChannelOk(name, Admit(ch, fd, params).0)
  {
  }

  lemma JoinKeeps(s: State, fd: int, params: seq<string>)
    requires Inv(s) && fd in s.clients
    ensures Inv(Join(s, fd, params).0)
  {
    if |params| >= 1 && ValidChannelName(params[0]) {
      var ch := if params[0] in s.channels then s.channels[params[0]] else NewChannel(params[0]);
      AdmitKeeps(params[0], ch, fd, params);
      SetChannelKeeps(s, params[0], Admit(ch, fd, params).0);
    }
  }

  lemma PartAndKickKeep(s: State, fd: int, params: seq<string>)
    requires Inv(s) && fd in s.clients
    ensures Inv(Part(s, fd, params).0) && Inv(Kick(s, fd, params).0)
  {
  }

  lemma InviteAndModeKeep(s: State, fd: int, params: seq<string>)
    requires Inv(s) && fd in s.clients
    ensures Inv(Invite(s, fd, params).0) && Inv(Mode(s, fd, params).0)
  {
  }

  lemma ObeyKeeps(s: State, fd: int, verb: Verb, params: seq<string>)
    requires Inv(s) && fd in s.clients
    ensures Inv(Obey(s, fd, verb, params).0) && Obey(s, fd, verb, params).0.password == s.password
  {
    match verb
    case PASS => PassKeeps(s, fd, params);
    case NICK => NickKeeps(s, fd, params);
    case USER => UserKeeps(s, fd, params);
    case JOIN => JoinKeeps(s, fd, params);
    case PART => PartAndKickKeep(s, fd, params);
    case KICK => PartAndKickKeep(s, fd, params);
    case INVITE => InviteAndModeKeep(s, fd, params);
    case MODE => InviteAndModeKeep(s, fd, params);
    case STATELESS =>
    case UNKNOWN =>
  }

  lemma DispatchKeeps(s: State, fd: int, command: string, params: seq<string>)
    requires Inv(s) && fd in s.clients
    ensures Inv(Dispatch(s, fd, command, params).0) && Dispatch(s, fd, command, params).0.password == s.password
  {
    ObeyKeeps(s, fd, VerbOf(ToUpper(command)), params);
  }

  lemma AcceptKeeps(s: State, fd: int)
    requires Inv(s) && fd !in s.clients
    ensures Inv(Step(s, Accept(fd)))
  {
    SetClientKeeps(s, fd, Client("", "", "", false, false));
  }

  lemma StepKeeps(s: State, e: Event)
    requires Inv(s) && Enabled(s, e)
    ensures Inv(Step(s, e)) && Step(s, e).password == s.password
  {
    match e
    case Accept(fd) => AcceptKeeps(s, fd);
    case Disconnect(fd) =>
    case Line(fd, command, params) => DispatchKeeps(s, fd, command, params);
  }

  /** The invariant holds in every reachable state, disconnects included. */
  lemma {:induction false} ReachableStatesAreOk(password: string, es: seq<Event>)
    requires IsRun(password, es)
    ensures Inv(After(password, es)) && After(password, es).password == password
  {
    if es == [] {
    } else {
      LastEvent(password, es);
      ReachableStatesAreOk(password, es[..|es| - 1]);
      StepKeeps(After(password, es[..|es| - 1]), es[|es| - 1]);
    }
  }

  /** Looking up a nickname finds its only holder, in every reachable state. */
  lemma LookupFindsTheHolder(password: string, es: seq<Event>, nick: string, fd: int)
    requires IsRun(password, es) && nick != ""
    ensures
      var clients := After(password, es).clients;
      Lookup(clients, nick) == Some(fd) <==> fd in clients && clients[fd].nick == nick
  {
    ReachableStatesAreOk(password, es);
    var clients := After(password, es).clients;
    if fd in clients && clients[fd].nick == nick {
      assert Holds(clients, fd, nick);
    }
  }

  // ----- members and connected clients -----

  /** Every member of every channel is a connected, registered client. */
  ghost predicate MembersRegistered(s: State) {
    forall name, fd :: name in s.channels && fd in s.channels[name].members ==>
      fd in s.clients && s.clients[fd].registered
  }

  ghost predicate IsMemberSomewhere(s: State, fd: int) {
    exists name :: name in s.channels && fd in s.channels[name].members
  }

  /** Commands disconnect nobody and take no registration away. */
  lemma RegistrationStays(s: State, fd: int, verb: Verb, params: seq<string>, m: int)
    requires fd in s.clients && m in s.clients
    ensures
      var t := Obey(s, fd, verb, params).0;
      m in t.clients && (s.clients[m].registered ==> t.clients[m].registered)
  {
  }

  lemma ObeyKeepsClients(s: State, fd: int, verb: Verb, params: seq<string>)
    requires fd in s.clients
    ensures Obey(s, fd, verb, params).0.clients.Keys == s.clients.Keys
  {
    match verb
    case PASS => assert Pass(s, fd, params).0.clients.Keys == s.clients.Keys;
    case NICK => assert Nick(s, fd, params).0.clients.Keys == s.clients.Keys;
    case USER => assert User(s, fd, params).0.clients.Keys == s.clients.Keys;
    case JOIN =>
    case PART =>
    case INVITE =>
    case KICK =>
    case MODE =>
    case STATELESS =>
    case UNKNOWN =>
  }

  /** The only new member a command makes is its sender, by JOIN. */
  lemma NewMemberIsSender(s: State, fd: int, verb: Verb, params: seq<string>, name: string, m: int)
    requires fd in s.clients
    requires
      var t := Obey(s, fd, verb, params).0;
      name in t.channels && m in t.channels[name].members
    ensures (name in s.channels && m in s.channels[name].members) || (m == fd && verb == JOIN)
  {
    if verb == JOIN {
      JoinAddsSender(s, fd, params, name, m);
    } else {
      OthersAddNobody(s, fd, verb, params, name, m);
    }
  }

  lemma JoinAddsSender(s: State, fd: int, params: seq<string>, name: string, m: int)
    requires fd in s.clients
    requires var t := Join(s, fd, params).0; name in t.channels && m in t.channels[name].members
    ensures (name in s.channels && m in s.channels[name].members) || m == fd
  {
  }

  lemma OthersAddNobody(s: State, fd: int, verb: Verb, params: seq<string>, name: string, m: int)
    requires fd in s.clients && verb != JOIN
    requires var t := Obey(s, fd, verb, params).0; name in t.channels && m in t.channels[name].members
    ensures name in s.channels && m in s.channels[name].members
  {
    match verb
    case PASS => assert Pass(s, fd, params).0.channels == s.channels;
    case NICK => assert Nick(s, fd, params).0.channels == s.channels;
    case USER => assert User(s, fd, params).0.channels == s.channels;
    case PART => assert m in Part(s, fd, params).0.channels[name].members;
    case INVITE => assert m in Invite(s, fd, params).0.channels[name].members;
    case KICK => assert m in Kick(s, fd, params).0.channels[name].members;
    case MODE => assert m in Mode(s, fd, params).0.channels[name].members;
    case STATELESS =>
    case UNKNOWN =>
  }

  lemma LineKeepsMembers(s: State, fd: int, command: string, params: seq<string>)
    requires fd in s.clients && MembersRegistered(s)
    ensures MembersRegistered(Dispatch(s, fd, command, params).0)
  {
    if MayUse(s.clients[fd], command) {
      if !s.clients[fd].registered {
        ChannelsNeedRegistration(s.clients[fd], command);
      }
      ObeyKeepsMembers(s, fd, VerbOf(ToUpper(command)), params);
    }
  }

  lemma ObeyKeepsMembers(s: State, fd: int, verb: Verb, params: seq<string>)
    requires fd in s.clients && MembersRegistered(s) && (verb == JOIN ==> s.clients[fd].registered)
    ensures MembersRegistered(Obey(s, fd, verb, params).0)
  {
    var t := Obey(s, fd, verb, params).0;
    forall name, m | name in t.channels && m in t.channels[name].members
      ensures m in t.clients && t.clients[m].registered
    {
      MemberStaysRegistered(s, fd, verb, params, name, m);
    }
  }

  lemma MemberStaysRegistered(s: State, fd: int, verb: Verb, params: seq<string>, name: string, m: int)
    requires fd in s.clients && MembersRegistered(s) && (verb == JOIN ==> s.clients[fd].registered)
    requires
      var t := Obey(s, fd, verb, params).0;
      name in t.channels && m in t.channels[name].members
    ensures
      var t := Obey(s, fd, verb, params).0;
      m in t.clients && t.clients[m].registered
  {
    NewMemberIsSender(s, fd, verb, params, name, m);
    assert m in s.clients && s.clients[m].registered;
    RegistrationStays(s, fd, verb, params, m);
  }

  /** A step breaks "members are connected and registered" exactly when it is the
      disconnect of someone who is still a member: channels are not told. */
  lemma MembersStayRegisteredIff(s: State, e: Event)
    requires MembersRegistered(s) && Enabled(s, e)
    ensures MembersRegistered(Step(s, e)) <==> !(e.Disconnect? && IsMemberSomewhere(s, e.fd))
  {
    match e
    case Accept(fd) =>
    case Disconnect(fd) =>
      if IsMemberSomewhere(s, fd) {
        var name :| name in s.channels && fd in s.channels[name].members;
        assert fd in Step(s, e).channels[name].members && fd !in Step(s, e).clients;
      }
    case Line(fd, command, params) => LineKeepsMembers(s, fd, command, params);
  }

  /** Only clients that have left every channel disconnect. */
  ghost predicate LeavesFirst(password: string, es: seq<Event>)
    requires IsRun(password, es)
  {
    forall k :: 0 <= k < |es| && es[k].Disconnect? && IsRun(password, es[..k]) ==>
      !IsMemberSomewhere(After(password, es[..k]), es[k].fd)
  }

  /** In such runs, those without disconnects among them, every member is connected and registered. */
  lemma {:induction false} MembersAreRegistered(password: string, es: seq<Event>)
    requires IsRun(password, es) && LeavesFirst(password, es)
    ensures MembersRegistered(After(password, es))
  {
    if es == [] {
    } else {
      LastEvent(password, es);
      var n := |es| - 1;
      var before := es[..n];
      forall k | 0 <= k < n && before[k].Disconnect? && IsRun(password, before[..k])
        ensures !IsMemberSomewhere(After(password, before[..k]), before[k].fd)
      {
        assert before[..k] == es[..k] && before[k] == es[k];
      }
      MembersAreRegistered(password, before);
      assert es[n].Disconnect? ==> !IsMemberSomewhere(After(password, es[..n]), es[n].fd);
      MembersStayRegisteredIff(After(password, before), es[n]);
    }
  }

  /** Throughout a run all members are connected and registered exactly if only clients
      that have left every channel disconnect. */
  lemma MembersAreRegisteredIff(password: string, es: seq<Event>)
    requires IsRun(password, es)
    ensures
      (forall k :: 0 <= k <= |es| && IsRun(password, es[..k]) ==> MembersRegistered(After(password, es[..k])))
      <==> LeavesFirst(password, es)
  {
    if LeavesFirst(password, es) {
      forall k | 0 <= k <= |es| && IsRun(password, es[..k]) ensures MembersRegistered(After(password, es[..k])) {
        var before := es[..k];
        forall m | 0 <= m < k && before[m].Disconnect? && IsRun(password, before[..m])
          ensures !IsMemberSomewhere(After(password, before[..m]), before[m].fd)
        {
          assert before[..m] == es[..m] && before[m] == es[m];
        }
        MembersAreRegistered(password, before);
      }
    } else {
      var k :| 0 <= k < |es| && es[k].Disconnect? && IsRun(password, es[..k]) &&
               IsMemberSomewhere(After(password, es[..k]), es[k].fd);
      MemberLeftBehind(password, es, k);
    }
  }

  lemma MemberLeftBehind(password: string, es: seq<Event>, k: nat)
    requires IsRun(password, es) && k < |es| && es[k].Disconnect? && IsRun(password, es[..k])
    requires IsMemberSomewhere(After(password, es[..k]), es[k].fd)
    ensures IsRun(password, es[..k + 1])
    ensures !(MembersRegistered(After(password, es[..k])) && MembersRegistered(After(password, es[..k + 1])))
  {
    PrefixOfRun(password, es, k + 1);
    LastEvent(password, es[..k + 1]);
    assert es[..k + 1][..k] == es[..k];
    if MembersRegistered(After(password, es[..k])) {
      MembersStayRegisteredIff(After(password, es[..k]), es[k]);
    }
  }

  // ----- a run that leaves a member behind -----

  /** Somebody connects, registers and opens a channel. */
  function OpensRoom(fd: int): seq<Event> {
    [Accept(fd)] + [Line(fd, "PASS", ["p"])] + [Line(fd, "NICK", ["n"])] + [Line(fd, "USER", ["u", "h", "s", "r"])] +
    [Line(fd, "JOIN", ["#room"])]
  }

  ghost function Alone(fd: int, c: Client): State {
    State("p", map[fd := c], map[])
  }

  ghost function InRoom(fd: int): State {
    State("p", map[fd := Client("n", "u", "r", true, true)],
          map["#room" := Channel("#room", {fd}, {fd}, {}, false, false, "", 0)])
  }

  lemma AcceptedAlone(fd: int)
    ensures IsRun("p", [Accept(fd)]) && After("p", [Accept(fd)]) == Alone(fd, Client("", "", "", false, false))
  {
    assert IsRun("p", []);
    RunGoesOn("p", [], Accept(fd));
    assert [] + [Accept(fd)] == [Accept(fd)];
  }

  /** A new client that writes "Nick" is told to register, and one that writes "NICK" gets its nickname. */
  lemma MixedCaseIsRefused(fd: int)
    ensures IsRun("p", [Accept(fd)])
    ensures
      var s := After("p", [Accept(fd)]);
      && fd in s.clients
      && Dispatch(s, fd, "Nick", ["n"]) == (s, Refused(ERR_NOTREGISTERED))
      && Dispatch(s, fd, "NICK", ["n"]).1 == Done
  {
    AcceptedAlone(fd);
    UpperIs("NICK", "NICK");
    assert ValidNick("n");
    assert "Nick"[0] == 'N' && "Nick"[1] == 'i';
  }

  lemma PassAlone(fd: int)
    ensures Step(Alone(fd, Client("", "", "", false, false)), Line(fd, "PASS", ["p"])) ==
            Alone(fd, Client("", "", "", true, false))
  {
    UpperIs("PASS", "PASS");
  }

  lemma NickAlone(fd: int)
    ensures Step(Alone(fd, Client("", "", "", true, false)), Line(fd, "NICK", ["n"])) ==
            Alone(fd, Client("n", "", "", true, false))
  {
    UpperIs("NICK", "NICK");
    assert ValidNick("n");
  }

  lemma UserAlone(fd: int)
    ensures Step(Alone(fd, Client("n", "", "", true, false)), Line(fd, "USER", ["u", "h", "s", "r"])) ==
            Alone(fd, Client("n", "u", "r", true, true))
  {
    UpperIs("USER", "USER");
  }

  lemma JoinAlone(fd: int)
    ensures Step(Alone(fd, Client("n", "u", "r", true, true)), Line(fd, "JOIN", ["#room"])) == InRoom(fd)
  {
    UpperIs("JOIN", "JOIN");
    assert ValidChannelName("#room");
  }

  lemma OpensRoomIsRun(fd: int)
    ensures IsRun("p", OpensRoom(fd)) && After("p", OpensRoom(fd)) == InRoom(fd)
  {
    AcceptedAlone(fd);
    var es := [Accept(fd)];
    PassAlone(fd);
    RunGoesOn("p", es, Line(fd, "PASS", ["p"]));
    es := es + [Line(fd, "PASS", ["p"])];
    NickAlone(fd);
    RunGoesOn("p", es, Line(fd, "NICK", ["n"]));
    es := es + [Line(fd, "NICK", ["n"])];
    UserAlone(fd);
    RunGoesOn("p", es, Line(fd, "USER", ["u", "h", "s", "r"]));
    es := es + [Line(fd, "USER", ["u", "h", "s", "r"])];
    JoinAlone(fd);
    RunGoesOn("p", es, Line(fd, "JOIN", ["#room"]));
  }

  /** A run after which someone who is gone is still a member: it opens a channel and disconnects. */
  lemma DisconnectedMember(fd: int)
    ensures
      var es := OpensRoom(fd);
      && IsRun("p", es) && MembersRegistered(After("p", es))
      && IsRun("p", es + [Disconnect(fd)]) && !MembersRegistered(After("p", es + [Disconnect(fd)]))
  {
    OpensRoomIsRun(fd);
    var s := InRoom(fd);
    RunGoesOn("p", OpensRoom(fd), Disconnect(fd));
    assert fd in s.channels["#room"].members;
    MembersStayRegisteredIff(s, Disconnect(fd));
  }

  // ----- limits -----

  /** Whatever the state, a step that adds a member to a limited channel leaves it within its limit. */
  lemma GrowthRespectsLimit(s: State, e: Event, name: string)
    requires Enabled(s, e) && name in s.channels && name in Step(s, e).channels
    requires |Step(s, e).channels[name].members| > |s.channels[name].members|
    requires Step(s, e).channels[name].limit > 0
    ensures |Step(s, e).channels[name].members| <= Step(s, e).channels[name].limit
  {
    if e.Line? {
      ObeyRespectsLimit(s, e.fd, VerbOf(ToUpper(e.command)), e.params, name);
    }
  }

  lemma ObeyRespectsLimit(s: State, fd: int, verb: Verb, params: seq<string>, name: string)
    requires fd in s.clients && name in s.channels
    ensures
      var t := Obey(s, fd, verb, params).0;
      name in t.channels && |t.channels[name].members| > |s.channels[name].members| && t.channels[name].limit > 0 ==>
      |t.channels[name].members| <= t.channels[name].limit
  {
    if (verb == PART || verb == KICK) && name in Obey(s, fd, verb, params).0.channels {
      Shrinks(Obey(s, fd, verb, params).0.channels[name].members, s.channels[name].members);
    }
  }

  lemma Shrinks(a: set<int>, b: set<int>)
    ensures a <= b ==> |a| <= |b|
  {
    if a <= b {
      assert b == a + (b - a);
    }
  }
}
