/** Properties of whole runs of the server that a single state does not show: where
    operators come from, and what admitted somebody to an invite-only channel. The
    ledgers look at events and states only, not at how commands compute them. A
    ledger of a channel starts again when the channel is created anew. */
module IrcHistory {
  import opened Common
  import opened IrcState
  import opened IrcInvariants

  // ----- operators -----

  /** A registered member and operator of the channel asks for the operator flag of somebody. */
  ghost predicate OperatorAsks(s: State, fd: int, verb: Verb, params: seq<string>, name: string, flag: Flag) {
    && verb == MODE && |params| >= 3 && params[0] == name && FlagOf(params[1]) == flag
    && fd in s.clients && s.clients[fd].registered
    && name in s.channels && fd in s.channels[name].members && fd in s.channels[name].operators
  }

  ghost function Asked(s: State, fd: int, verb: Verb, params: seq<string>, name: string, flag: Flag): set<int> {
    if OperatorAsks(s, fd, verb, params, name, flag) then
      match Lookup(s.clients, params[2])
      case None => {}
      case Some(target) => {target}
    else {}
  }

  ghost function AskedBy(s: State, e: Event, name: string, flag: Flag): set<int> {
    if e.Line? then Asked(s, e.fd, VerbOf(ToUpper(e.command)), e.params, name, flag) else {}
  }

  /** Who is entitled after one more event of `fd`: the creator of a new channel; later
      those entitled before or granted +o by a then-operator, less those a
      then-operator took it from, as long as they are members. */
  ghost function NextEntitled(had: set<int>, granted: set<int>, taken: set<int>, pre: State, fd: int, post: State,
                              name: string): set<int>
  {
    if name !in post.channels then {}
    else if name !in pre.channels then {fd}
    else (had + granted - taken) * post.channels[name].members
  }

  ghost function Entitled(password: string, es: seq<Event>, name: string): set<int>
    requires IsRun(password, es)
  {
    if es == [] then {}
    else
      LastEvent(password, es);
      var before := es[..|es| - 1];
      var s, e := After(password, before), es[|es| - 1];
      NextEntitled(Entitled(password, before, name), AskedBy(s, e, name, OpOn), AskedBy(s, e, name, OpOff),
                   s, e.fd, After(password, es), name)
  }

  ghost function OperatorsOf(s: State, name: string): set<int> {
    if name in s.channels then s.channels[name].operators else {}
  }

  lemma NotAlone(members: set<int>, fd: int)
    requires members != {} && fd !in members
    ensures |members + {fd}| != 1
  {
    assert |members| > 0;
  }

  lemma JoinKeepsOperators(s: State, fd: int, params: seq<string>, name: string)
    requires Inv(s) && fd in s.clients
    ensures
      var t := Join(s, fd, params).0;
      OperatorsOf(t, name) == if name in t.channels && name !in s.channels then {fd} else OperatorsOf(s, name)
  {
    if name in s.channels && fd !in s.channels[name].members {
      assert ChannelOk(name, s.channels[name]);
      NotAlone(s.channels[name].members, fd);
    }
  }

  /** Whoever leaves a channel leaves its operators. */
  lemma LeavingKeepsOperators(s: State, fd: int, params: seq<string>, name: string)
    requires Inv(s) && fd in s.clients
    ensures
      var t := Part(s, fd, params).0;
      OperatorsOf(t, name) == if name in t.channels then OperatorsOf(s, name) * t.channels[name].members else {}
    ensures
      var t := Kick(s, fd, params).0;
      OperatorsOf(t, name) == if name in t.channels then OperatorsOf(s, name) * t.channels[name].members else {}
  {
    if name in s.channels {
      assert ChannelOk(name, s.channels[name]);
    }
  }

  /** Only the two operator flags change operators, and only for a member. */
  lemma ModeMovesOperators(ch: Channel, flag: Flag, params: seq<string>, target: Option<int>)
    requires ch.operators <= ch.members
    ensures
      var on := if flag == OpOn && |params| >= 3 && target.Some? then {target.value} else {};
      var off := if flag == OpOff && |params| >= 3 && target.Some? then {target.value} else {};
      var after := ChangeMode(ch, flag, params, target).0;
      after.members == ch.members && after.operators == (ch.operators + on - off) * ch.members
  {
  }

  lemma ModeFollowsEntitlement(s: State, fd: int, params: seq<string>, name: string)
    requires Inv(s) && fd in s.clients && s.clients[fd].registered
    ensures
      var t := Mode(s, fd, params).0;
      OperatorsOf(t, name) == NextEntitled(OperatorsOf(s, name), Asked(s, fd, MODE, params, name, OpOn),
                                           Asked(s, fd, MODE, params, name, OpOff), s, fd, t, name)
  {
    if name in s.channels {
      assert ChannelOk(name, s.channels[name]);
      if |params| >= 2 && params[0] == name {
        var target := if |params| >= 3 then Lookup(s.clients, params[2]) else None;
        ModeMovesOperators(s.channels[name], FlagOf(params[1]), params, target);
      }
    }
  }

  lemma ObeyFollowsEntitlement(s: State, fd: int, verb: Verb, params: seq<string>, name: string)
    requires Inv(s) && fd in s.clients && s.clients[fd].registered
    ensures
      var t := Obey(s, fd, verb, params).0;
      OperatorsOf(t, name) == NextEntitled(OperatorsOf(s, name), Asked(s, fd, verb, params, name, OpOn),
                                           Asked(s, fd, verb, params, name, OpOff), s, fd, t, name)
  {
    if name in s.channels {
      assert ChannelOk(name, s.channels[name]);
    }
    match verb
    case MODE => ModeFollowsEntitlement(s, fd, params, name);
    case JOIN => JoinFollowsEntitlement(s, fd, params, name);
    case PART => LeavingKeepsOperators(s, fd, params, name);
    case KICK => LeavingKeepsOperators(s, fd, params, name);
    case INVITE => InviteKeepsChannels(s, fd, params, name);
    case PASS =>
    case NICK =>
    case USER =>
    case STATELESS =>
    case UNKNOWN =>
  }

  lemma InviteKeepsChannels(s: State, fd: int, params: seq<string>, name: string)
    requires fd in s.clients
    ensures
      var t := Invite(s, fd, params).0;
      && (name in t.channels <==> name in s.channels)
      && OperatorsOf(t, name) == OperatorsOf(s, name)
      && (name in s.channels ==> t.channels[name].members == s.channels[name].members)
  {
  }

  lemma JoinFollowsEntitlement(s: State, fd: int, params: seq<string>, name: string)
    requires Inv(s) && fd in s.clients
    ensures
      var t := Join(s, fd, params).0;
      OperatorsOf(t, name) == NextEntitled(OperatorsOf(s, name), {}, {}, s, fd, t, name)
  {
    JoinKeepsOperators(s, fd, params, name);
    if name in s.channels {
      assert ChannelOk(name, s.channels[name]);
      JoinKeepsMembers(s, fd, params, name);
    }
  }

  lemma JoinKeepsMembers(s: State, fd: int, params: seq<string>, name: string)
    requires fd in s.clients && name in s.channels
    ensures name in Join(s, fd, params).0.channels
    ensures s.channels[name].members <= Join(s, fd, params).0.channels[name].members
  {
  }

  /** A line without registration leaves channels alone. */
  lemma UnregisteredTouchesNoChannel(s: State, fd: int, command: string, params: seq<string>)
    requires fd in s.clients && !s.clients[fd].registered
    ensures Dispatch(s, fd, command, params).0.channels == s.channels
  {
    if MayUse(s.clients[fd], command) {
      ChannelsNeedRegistration(s.clients[fd], command);
    }
  }

  lemma LineFollowsEntitlement(s: State, fd: int, command: string, params: seq<string>, name: string)
    requires Inv(s) && fd in s.clients
    ensures
      var t := Dispatch(s, fd, command, params).0;
      var verb := VerbOf(ToUpper(command));
      OperatorsOf(t, name) == NextEntitled(OperatorsOf(s, name), Asked(s, fd, verb, params, name, OpOn),
                                           Asked(s, fd, verb, params, name, OpOff), s, fd, t, name)
  {
    if s.clients[fd].registered {
      ObeyFollowsEntitlement(s, fd, VerbOf(ToUpper(command)), params, name);
    } else {
      UnregisteredTouchesNoChannel(s, fd, command, params);
      if name in s.channels {
        assert ChannelOk(name, s.channels[name]);
      }
    }
  }

  lemma StepFollowsEntitlement(s: State, e: Event, name: string)
    requires Inv(s) && Enabled(s, e)
    ensures OperatorsOf(Step(s, e), name) == NextEntitled(OperatorsOf(s, name), AskedBy(s, e, name, OpOn),
                                                          AskedBy(s, e, name, OpOff), s, e.fd, Step(s, e), name)
  {
    if e.Line? {
      LineFollowsEntitlement(s, e.fd, e.command, e.params, name);
    } else if name in s.channels {
      assert ChannelOk(name, s.channels[name]);
    }
  }

  /** Operator provenance: in every run the operators of a channel are exactly the entitled. */
  lemma {:induction false} OperatorsAreEntitled(password: string, es: seq<Event>, name: string)
    requires IsRun(password, es)
    ensures OperatorsOf(After(password, es), name) == Entitled(password, es, name)
  {
    if es == [] {
    } else {
      LastEvent(password, es);
      var before := es[..|es| - 1];
      OperatorsAreEntitled(password, before, name);
      ReachableStatesAreOk(password, before);
      StepFollowsEntitlement(After(password, before), es[|es| - 1], name);
    }
  }

  // ----- invites -----

  /** A successful INVITE of the client `fd` to the channel. */
  ghost predicate Invites(s: State, e: Event, name: string, fd: int)
    requires Enabled(s, e)
  {
    && e.Line? && VerbOf(ToUpper(e.command)) == INVITE && StepWithOutcome(s, e).1 == Done
    && |e.params| >= 2 && e.params[1] == name && Lookup(s.clients, e.params[0]) == Some(fd)
  }

  /** Between two states the client came into the channel, which was invite-only. */
  ghost predicate Entered(s: State, t: State, name: string, fd: int) {
    && name in s.channels && s.channels[name].inviteOnly && fd !in s.channels[name].members
    && name in t.channels && fd in t.channels[name].members
  }

  /** The client enters the existing channel while it is invite-only. */
  ghost predicate EntersByInvite(s: State, e: Event, name: string, fd: int)
    requires Enabled(s, e)
  {
    e.fd == fd && Entered(s, Step(s, e), name, fd)
  }

  /** An invite the client held, or was given once more, comes to nothing: it was held
      already, or the key or the limit refuses the JOIN it is shown for, or its holder,
      who came in by other means, parts. */
  ghost predicate Wastes(s: State, e: Event, name: string, fd: int)
    requires Enabled(s, e)
  {
    && e.Line? && Held(s, name, fd) == 1
    && ( || Invites(s, e, name, fd)
         || (e.fd == fd && MayUse(s.clients[fd], e.command) &&
             WastesOwn(s, VerbOf(ToUpper(e.command)), e.params, name, fd)))
  }

  /** What a JOIN with these parameters lacks, apart from an invite: the key, or room. */
  predicate ShutOut(ch: Channel, params: seq<string>) {
    || (ch.key != "" && (|params| < 2 || params[1] != ch.key))
    || (ch.limit > 0 && |ch.members| >= ch.limit)
  }

  ghost predicate WastesOwn(s: State, verb: Verb, params: seq<string>, name: string, fd: int)
    requires name in s.channels
  {
    var ch := s.channels[name];
    && |params| >= 1 && params[0] == name
    && ( || (verb == JOIN && ValidChannelName(name) && fd !in ch.members && ch.inviteOnly && ShutOut(ch, params))
         || (verb == PART && fd in ch.members))
  }

  /** The client sends a JOIN for an invite-only channel that lets it in. */
  ghost predicate ShowsInvite(s: State, verb: Verb, params: seq<string>, name: string, fd: int)
    requires name in s.channels
  {
    var ch := s.channels[name];
    && verb == JOIN && |params| >= 1 && params[0] == name && ValidChannelName(name)
    && fd !in ch.members && ch.inviteOnly && !ShutOut(ch, params)
  }

  datatype Ledger = Ledger(issued: nat, entered: nat, wasted: nat)

  /** Counts per channel incarnation. */
  ghost function NextLedger(had: Ledger, s: State, e: Event, name: string, fd: int): Ledger
    requires Enabled(s, e)
  {
    if name !in s.channels || name !in Step(s, e).channels then Ledger(0, 0, 0)
    else Ledger(had.issued + (if Invites(s, e, name, fd) then 1 else 0),
                had.entered + (if EntersByInvite(s, e, name, fd) then 1 else 0),
                had.wasted + (if Wastes(s, e, name, fd) then 1 else 0))
  }

  ghost function LedgerOf(password: string, es: seq<Event>, name: string, fd: int): Ledger
    requires IsRun(password, es)
  {
    if es == [] then Ledger(0, 0, 0)
    else
      LastEvent(password, es);
      var before := es[..|es| - 1];
      NextLedger(LedgerOf(password, before, name, fd), After(password, before), es[|es| - 1], name, fd)
  }

  /** One if the channel holds an invite for the client. */
  ghost function Held(s: State, name: string, fd: int): nat {
    if name in s.channels && fd in s.channels[name].invited then 1 else 0
  }

  /** Only registered operators of the channel invite, and only clients that are not members. */
  lemma OnlyOperatorsInvite(s: State, e: Event, name: string, fd: int)
    requires Enabled(s, e) && Invites(s, e, name, fd)
    ensures name in s.channels && e.fd in s.channels[name].members && e.fd in s.channels[name].operators
    ensures s.clients[e.fd].registered && fd !in s.channels[name].members
  {
    if !s.clients[e.fd].registered && MayUse(s.clients[e.fd], e.command) {
      ChannelsNeedRegistration(s.clients[e.fd], e.command);
    }
  }

  /** Whoever enters an invite-only channel sent the JOIN, and spent an invite on it. */
  lemma EnteringSpends(s: State, sender: int, verb: Verb, params: seq<string>, name: string, fd: int)
    requires sender in s.clients && Entered(s, Obey(s, sender, verb, params).0, name, fd)
    ensures sender == fd && Held(s, name, fd) == 1 && Held(Obey(s, sender, verb, params).0, name, fd) == 0
  {
    NewMemberIsSender(s, sender, verb, params, name, fd);
  }

  /** Only a successful INVITE gives an invite. */
  lemma InvitesComeFromInvite(s: State, sender: int, verb: Verb, params: seq<string>, name: string, fd: int)
    requires sender in s.clients
    requires Held(Obey(s, sender, verb, params).0, name, fd) > Held(s, name, fd)
    ensures verb == INVITE && Obey(s, sender, verb, params).1 == Done
    ensures |params| >= 2 && params[1] == name && Lookup(s.clients, params[0]) == Some(fd) && name in s.channels
  {
  }

  /** A held invite goes exactly by a JOIN of its holder for the invite-only channel,
      be it admitted or shut out, and by a PART of its holder. */
  lemma InvitesGo(s: State, sender: int, verb: Verb, params: seq<string>, name: string, fd: int)
    requires sender in s.clients && Held(s, name, fd) == 1
    requires name in Obey(s, sender, verb, params).0.channels
    ensures
      var t := Obey(s, sender, verb, params).0;
      && (Entered(s, t, name, fd) <==> sender == fd && ShowsInvite(s, verb, params, name, fd))
      && (Held(t, name, fd) == 0 <==>
            sender == fd && (ShowsInvite(s, verb, params, name, fd) || WastesOwn(s, verb, params, name, fd)))
  {
  }

  lemma LineBalances(s: State, sender: int, command: string, params: seq<string>, name: string, fd: int, had: Ledger)
    requires sender in s.clients
    requires had.issued == had.entered + Held(s, name, fd) + had.wasted
    ensures
      var e := Line(sender, command, params);
      var next := NextLedger(had, s, e, name, fd);
      next.issued == next.entered + Held(Step(s, e), name, fd) + next.wasted
  {
    if MayUse(s.clients[sender], command) {
      var verb := VerbOf(ToUpper(command));
      var t := Obey(s, sender, verb, params).0;
      if Entered(s, t, name, fd) {
        EnteringSpends(s, sender, verb, params, name, fd);
      }
      if Held(t, name, fd) > Held(s, name, fd) {
        InvitesComeFromInvite(s, sender, verb, params, name, fd);
      }
      if Held(s, name, fd) == 1 && name in t.channels {
        InvitesGo(s, sender, verb, params, name, fd);
      }
    }
  }

  lemma StepBalances(s: State, e: Event, name: string, fd: int, had: Ledger)
    requires Enabled(s, e)
    requires had.issued == had.entered + Held(s, name, fd) + had.wasted
    ensures
      var next := NextLedger(had, s, e, name, fd);
      next.issued == next.entered + Held(Step(s, e), name, fd) + next.wasted
  {
    match e
    case Accept(_) =>
    case Disconnect(_) =>
    case Line(sender, command, params) => LineBalances(s, sender, command, params, name, fd, had);
  }

  /** Invite accounting: in every run, for every channel incarnation and descriptor, every
      invite issued for it has let it in while the channel was invite-only, is still
      held, or was wasted. So entries never exceed invites. */
  lemma {:induction false} InvitesBalance(password: string, es: seq<Event>, name: string, fd: int)
    requires IsRun(password, es)
    ensures
      var ledger := LedgerOf(password, es, name, fd);
      ledger.issued == ledger.entered + Held(After(password, es), name, fd) + ledger.wasted
  {
    if es == [] {
    } else {
      LastEvent(password, es);
      var before := es[..|es| - 1];
      InvitesBalance(password, before, name, fd);
      StepBalances(After(password, before), es[|es| - 1], name, fd, LedgerOf(password, before, name, fd));
    }
  }

  /** A JOIN that is refused and yet changes something: exactly that of an invited
      client that lacks the key or finds no room. It loses the invite and nothing else. */
  lemma RefusedJoinSpendsInviteIff(s: State, fd: int, params: seq<string>)
    requires fd in s.clients && |params| >= 1 && ValidChannelName(params[0]) && params[0] in s.channels
    requires fd !in s.channels[params[0]].members
    ensures
      var ch, (t, outcome) := s.channels[params[0]], Join(s, fd, params);
      var loses := ch.inviteOnly && fd in ch.invited && ShutOut(ch, params);
      && (outcome.Refused? && t != s <==> loses)
      && (ch.inviteOnly && outcome in {Refused(ERR_BADCHANNELKEY), Refused(ERR_CHANNELISFULL)} <==> loses)
      && (loses ==> t == s.(channels := s.channels[params[0] := ch.(invited := ch.invited - {fd})]))
  {
    var name := params[0];
    var ch := s.channels[name];
    assert s.channels[name := ch] == s.channels;
    assert Join(s, fd, params).0.channels[name] == Admit(ch, fd, params).0;
  }

  // ----- a run that loses an invite -----

  function Founder(): Client {
    Client("n", "u", "r", true, true)
  }

  function Guest(nick: string, user: string, authorized: bool): Client {
    Client(nick, user, if user == "" then "" else "r", authorized, authorized && nick != "" && user != "")
  }

  function Room(invited: set<int>, inviteOnly: bool, key: string): Channel {
    Channel("#room", {1}, {1}, invited, inviteOnly, false, key, 0)
  }

  ghost function Scene(guest: Client, room: Channel): State {
    State("p", map[1 := Founder(), 2 := guest], map["#room" := room])
  }

  lemma GuestArrives(room: Channel)
    ensures Step(State("p", map[1 := Founder()], map["#room" := room]), Accept(2)) == Scene(Guest("", "", false), room)
  {
  }

  lemma GuestPasses(room: Channel)
    ensures Step(Scene(Guest("", "", false), room), Line(2, "PASS", ["p"])) == Scene(Guest("", "", true), room)
  {
    UpperIs("PASS", "PASS");
  }

  lemma GuestIsNamed(room: Channel)
    ensures Step(Scene(Guest("", "", true), room), Line(2, "NICK", ["m"])) == Scene(Guest("m", "", true), room)
  {
    UpperIs("NICK", "NICK");
    assert ValidNick("m");
    assert Founder().nick[0] != "m"[0];
  }

  lemma GuestRegisters(room: Channel)
    ensures Step(Scene(Guest("m", "", true), room), Line(2, "USER", ["v", "h", "s", "r"])) ==
            Scene(Guest("m", "v", true), room)
  {
    UpperIs("USER", "USER");
  }

  lemma FounderInvitesOnly(guest: Client)
    ensures Step(Scene(guest, Room({}, false, "")), Line(1, "MODE", ["#room", "+i"])) ==
            Scene(guest, Room({}, true, ""))
  {
    UpperIs("MODE", "MODE");
    assert FlagOf("+i") == InviteOn;
  }

  lemma FounderSetsKey(guest: Client)
    ensures Step(Scene(guest, Room({}, true, "")), Line(1, "MODE", ["#room", "+k", "sesame"])) ==
            Scene(guest, Room({}, true, "sesame"))
  {
    UpperIs("MODE", "MODE");
    assert FlagOf("+k") == KeyOn;
  }

  lemma FounderInvites()
    ensures Step(Scene(Guest("m", "v", true), Room({}, true, "sesame")), Line(1, "INVITE", ["m", "#room"])) ==
            Scene(Guest("m", "v", true), Room({2}, true, "sesame"))
  {
    UpperIs("INVITE", "INVITE");
    var s := Scene(Guest("m", "v", true), Room({}, true, "sesame"));
    assert Founder().nick[0] != "m"[0];
    assert Holds(s.clients, 2, "m") && !Holds(s.clients, 1, "m");
    assert Lookup(s.clients, "m") == Some(2);
    var ch := Room({}, true, "sesame");
    assert Invite(s, 1, ["m", "#room"]).0 == SetChannel(s, "#room", ch.(invited := ch.invited + {2}));
    assert {} + {2} == {2};
  }

  function InvitesGuest(): seq<Event> {
    OpensRoom(1) + [Accept(2)] + [Line(2, "PASS", ["p"])] + [Line(2, "NICK", ["m"])] +
    [Line(2, "USER", ["v", "h", "s", "r"])] + [Line(1, "MODE", ["#room", "+i"])] +
    [Line(1, "MODE", ["#room", "+k", "sesame"])] + [Line(1, "INVITE", ["m", "#room"])]
  }

  lemma GuestIsThere() returns (es: seq<Event>)
    ensures es == OpensRoom(1) + [Accept(2)] + [Line(2, "PASS", ["p"])] + [Line(2, "NICK", ["m"])] +
                  [Line(2, "USER", ["v", "h", "s", "r"])]
    ensures IsRun("p", es) && After("p", es) == Scene(Guest("m", "v", true), Room({}, false, ""))
  {
    OpensRoomIsRun(1);
    es := OpensRoom(1);
    var room := Room({}, false, "");
    GuestArrives(room);
    RunGoesOn("p", es, Accept(2));
    es := es + [Accept(2)];
    GuestPasses(room);
    RunGoesOn("p", es, Line(2, "PASS", ["p"]));
    es := es + [Line(2, "PASS", ["p"])];
    GuestIsNamed(room);
    RunGoesOn("p", es, Line(2, "NICK", ["m"]));
    es := es + [Line(2, "NICK", ["m"])];
    GuestRegisters(room);
    RunGoesOn("p", es, Line(2, "USER", ["v", "h", "s", "r"]));
    es := es + [Line(2, "USER", ["v", "h", "s", "r"])];
  }

  lemma InvitesGuestIsRun()
    ensures IsRun("p", InvitesGuest())
    ensures After("p", InvitesGuest()) == Scene(Guest("m", "v", true), Room({2}, true, "sesame"))
  {
    var es := GuestIsThere();
    var guest := Guest("m", "v", true);
    FounderInvitesOnly(guest);
    RunGoesOn("p", es, Line(1, "MODE", ["#room", "+i"]));
    es := es + [Line(1, "MODE", ["#room", "+i"])];
    FounderSetsKey(guest);
    RunGoesOn("p", es, Line(1, "MODE", ["#room", "+k", "sesame"]));
    es := es + [Line(1, "MODE", ["#room", "+k", "sesame"])];
    FounderInvites();
    RunGoesOn("p", es, Line(1, "INVITE", ["m", "#room"]));
  }

  /** At the end of that run the guest could join with the key. It forgets the key, is
      refused for it, and has lost the invite: with the key it is refused again. */
  lemma LostInvite()
    ensures IsRun("p", InvitesGuest())
    ensures
      var s := After("p", InvitesGuest());
      2 in s.clients && Join(s, 2, ["#room", "sesame"]).1 == Done &&
      var (t, outcome) := Join(s, 2, ["#room"]);
      && outcome == Refused(ERR_BADCHANNELKEY) && t != s
      && Join(t, 2, ["#room", "sesame"]) == (t, Refused(ERR_INVITEONLYCHAN))
  {
    InvitesGuestIsRun();
    var s := Scene(Guest("m", "v", true), Room({2}, true, "sesame"));
    assert ValidChannelName("#room");
    RefusedJoinSpendsInviteIff(s, 2, ["#room"]);
    var t := Join(s, 2, ["#room"]).0;
    assert t.channels["#room" := t.channels["#room"]] == t.channels;
  }
}
