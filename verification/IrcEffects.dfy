/** What each command does to each part of the state, told from the part that changes:
    exactly which line of whom authorizes, names, lets in, removes, invites or sets. */
module IrcEffects {
  import opened Common
  import opened Decimal
  import opened IrcState
  import opened IrcInvariants
  import opened IrcHistory

  /** The command table. */
  lemma WordsAreVerbs(u: string)
    ensures VerbOf(u) == PASS <==> u == "PASS"
    ensures VerbOf(u) == NICK <==> u == "NICK"
    ensures VerbOf(u) == USER <==> u == "USER"
    ensures VerbOf(u) == JOIN <==> u == "JOIN"
    ensures VerbOf(u) == PART <==> u == "PART"
    ensures VerbOf(u) == INVITE <==> u == "INVITE"
    ensures VerbOf(u) == KICK <==> u == "KICK"
    ensures VerbOf(u) == MODE <==> u == "MODE"
    ensures VerbOf(u) == STATELESS <==> u in {"CAP", "TOPIC", "PRIVMSG", "PING", "INFO", "DEBUGCHANNEL"}
  {
  }

  // ----- clients -----

  /** Who is connected. */
  lemma ConnectedAre(s: State, e: Event)
    requires Enabled(s, e)
    ensures Step(s, e).clients.Keys ==
      match e
      case Accept(fd) => s.clients.Keys + {fd}
      case Disconnect(fd) => s.clients.Keys - {fd}
      case Line(_, _, _) => s.clients.Keys
  {
    if e.Line? {
      ObeyKeepsClients(s, e.fd, VerbOf(ToUpper(e.command)), e.params);
    }
  }

  /** Nothing but the password authorizes. */
  lemma AuthorizedIff(s: State, sender: int, verb: Verb, params: seq<string>, fd: int)
    requires sender in s.clients && fd in s.clients
    ensures fd in Obey(s, sender, verb, params).0.clients
    ensures Obey(s, sender, verb, params).0.clients[fd].authorized <==>
      || s.clients[fd].authorized
      || (sender == fd && !s.clients[fd].registered && verb == PASS && |params| >= 1 && params[0] == s.password)
  {
  }

  /** A client takes on exactly the valid names that are free. */
  lemma NicknameIs(s: State, sender: int, verb: Verb, params: seq<string>, fd: int)
    requires sender in s.clients && fd in s.clients
    ensures fd in Obey(s, sender, verb, params).0.clients
    ensures Obey(s, sender, verb, params).0.clients[fd].nick ==
      if sender == fd && verb == NICK && |params| >= 1 && ValidNick(params[0]) && !NickExists(s.clients, params[0])
      then params[0] else s.clients[fd].nick
  {
  }

  /** A NICK either gives the client the name it asks for or changes nothing. */
  lemma RenamedIff(s: State, fd: int, params: seq<string>)
    requires Inv(s) && fd in s.clients && |params| >= 1 && s.clients[fd].nick != params[0]
    ensures
      var t := Obey(s, fd, NICK, params).0;
      && (t.clients[fd].nick == params[0] <==> ValidNick(params[0]) && !NickExists(s.clients, params[0]))
      && (t.clients[fd].nick != params[0] ==> t == s)
  {
  }

  /** USER is heard once, and takes the first and the fourth parameter. */
  lemma UserNamesAre(s: State, sender: int, verb: Verb, params: seq<string>, fd: int)
    requires sender in s.clients && fd in s.clients
    ensures fd in Obey(s, sender, verb, params).0.clients
    ensures
      var c, d := s.clients[fd], Obey(s, sender, verb, params).0.clients[fd];
      (d.user, d.realName) ==
      if sender == fd && verb == USER && !c.registered && |params| >= 4 then (params[0], params[3])
      else (c.user, c.realName)
  {
  }

  // ----- members -----

  /** The line by which a member leaves: its own PART, or an operator's KICK that names it. */
  ghost predicate Removes(s: State, sender: int, verb: Verb, params: seq<string>, name: string, fd: int)
    requires name in s.channels
  {
    var ch := s.channels[name];
    && |params| >= 1 && params[0] == name
    && ( || (verb == PART && sender == fd)
         || (verb == KICK && |params| >= 2 && sender in ch.members && sender in ch.operators &&
             Lookup(s.clients, params[1]) == Some(fd)))
  }

  ghost predicate IsMember(s: State, name: string, fd: int) {
    name in s.channels && fd in s.channels[name].members
  }

  /** Nothing else removes a member. */
  lemma RemovedIff(s: State, sender: int, verb: Verb, params: seq<string>, name: string, fd: int)
    requires sender in s.clients && IsMember(s, name, fd)
    ensures !IsMember(Obey(s, sender, verb, params).0, name, fd) <==> Removes(s, sender, verb, params, name, fd)
  {
    if verb == PART || verb == KICK {
      LeaversOnly(s, sender, verb, params, name, fd);
    }
  }

  lemma LeaversOnly(s: State, sender: int, verb: Verb, params: seq<string>, name: string, fd: int)
    requires sender in s.clients && IsMember(s, name, fd) && (verb == PART || verb == KICK)
    ensures !IsMember(Obey(s, sender, verb, params).0, name, fd) <==> Removes(s, sender, verb, params, name, fd)
  {
    if verb == PART {
      assert sender != fd ==> fd in s.channels[name].members - {sender};
    } else if |params| >= 2 && Lookup(s.clients, params[1]).Some? {
      var target := Lookup(s.clients, params[1]).value;
      assert target != fd ==> fd in s.channels[name].members - {target};
    }
  }

  /** Nothing but one's own JOIN makes a member, and what it takes. */
  lemma AddedIff(s: State, sender: int, verb: Verb, params: seq<string>, name: string, fd: int)
    requires sender in s.clients && !IsMember(s, name, fd)
    ensures IsMember(Obey(s, sender, verb, params).0, name, fd) <==>
      && sender == fd && verb == JOIN && |params| >= 1 && params[0] == name && ValidChannelName(name)
      && (name in s.channels ==>
            (s.channels[name].inviteOnly ==> fd in s.channels[name].invited) && !ShutOut(s.channels[name], params))
  {
    var t := Obey(s, sender, verb, params).0;
    if IsMember(t, name, fd) {
      NewMemberIsSender(s, sender, verb, params, name, fd);
    }
  }

  /** A channel is there exactly as long as it has members. */
  lemma ChannelsHaveMembers(s: State, sender: int, verb: Verb, params: seq<string>, name: string)
    requires Inv(s) && sender in s.clients
    ensures
      var t := Obey(s, sender, verb, params).0;
      name in t.channels <==> exists fd :: IsMember(t, name, fd)
  {
    var t := Obey(s, sender, verb, params).0;
    ObeyKeeps(s, sender, verb, params);
    if name in t.channels {
      assert ChannelOk(name, t.channels[name]);
      SomebodyIn(t.channels[name].members);
      assert forall fd :: fd in t.channels[name].members ==> IsMember(t, name, fd);
    }
  }

  lemma SomebodyIn(fds: set<int>)
    ensures fds == {} || exists fd :: fd in fds
  {
    if forall fd :: fd !in fds {
      assert fds == {};
    }
  }

  // ----- invites -----

  /** Who is invited after a line. */
  lemma InvitedIff(s: State, sender: int, verb: Verb, params: seq<string>, name: string, fd: int)
    requires sender in s.clients && name in s.channels && name in Obey(s, sender, verb, params).0.channels
    ensures fd in Obey(s, sender, verb, params).0.channels[name].invited <==>
      || (verb == INVITE && |params| >= 2 && params[1] == name && Lookup(s.clients, params[0]) == Some(fd) &&
          sender in s.channels[name].members && sender in s.channels[name].operators && fd !in s.channels[name].members)
      || (fd in s.channels[name].invited &&
          !(sender == fd && (ShowsInvite(s, verb, params, name, fd) || WastesOwn(s, verb, params, name, fd))))
  {
    if fd in s.channels[name].invited {
      InvitesGo(s, sender, verb, params, name, fd);
    } else if Held(Obey(s, sender, verb, params).0, name, fd) > Held(s, name, fd) {
      InvitesComeFromInvite(s, sender, verb, params, name, fd);
    }
  }

  // ----- settings -----

  /** An operator of the channel asks for this mode. */
  ghost predicate SetsMode(s: State, sender: int, verb: Verb, params: seq<string>, name: string, mode: string) {
    && verb == MODE && |params| >= 2 && params[0] == name && params[1] == mode
    && IsMember(s, name, sender) && sender in s.channels[name].operators
  }

  lemma InviteOnlyIs(s: State, sender: int, verb: Verb, params: seq<string>, name: string)
    requires sender in s.clients && name in s.channels && name in Obey(s, sender, verb, params).0.channels
    ensures Obey(s, sender, verb, params).0.channels[name].inviteOnly <==>
      || SetsMode(s, sender, verb, params, name, "+i")
      || (s.channels[name].inviteOnly && !SetsMode(s, sender, verb, params, name, "-i"))
  {
  }

  lemma TopicRestrictedIs(s: State, sender: int, verb: Verb, params: seq<string>, name: string)
    requires sender in s.clients && name in s.channels && name in Obey(s, sender, verb, params).0.channels
    ensures Obey(s, sender, verb, params).0.channels[name].topicRestricted <==>
      || SetsMode(s, sender, verb, params, name, "+t")
      || (s.channels[name].topicRestricted && !SetsMode(s, sender, verb, params, name, "-t"))
  {
  }

  lemma KeyIs(s: State, sender: int, verb: Verb, params: seq<string>, name: string)
    requires sender in s.clients && name in s.channels && name in Obey(s, sender, verb, params).0.channels
    ensures Obey(s, sender, verb, params).0.channels[name].key ==
      if SetsMode(s, sender, verb, params, name, "+k") && |params| >= 3 then params[2]
      else if SetsMode(s, sender, verb, params, name, "-k") then ""
      else s.channels[name].key
  {
  }

  /** A limit is set only by a number that is not zero. */
  lemma LimitIs(s: State, sender: int, verb: Verb, params: seq<string>, name: string)
    requires sender in s.clients && name in s.channels && name in Obey(s, sender, verb, params).0.channels
    ensures Obey(s, sender, verb, params).0.channels[name].limit ==
      if SetsMode(s, sender, verb, params, name, "+l") && |params| >= 3 && LimitOf(params[2]) != 0
      then LimitOf(params[2])
      else if SetsMode(s, sender, verb, params, name, "-l") then 0
      else s.channels[name].limit
  {
  }

  // ----- the number in a limit -----

  const INT_MAX := 0x7fff_ffff

  predicate Blanks(s: string) {
    forall i :: 0 <= i < |s| ==> s[i] in " \t\n\U{0b}\U{0c}\r"
  }

  lemma {:induction false} AtoiDigitsIs(digits: string, rest: string, acc: nat)
    requires Digits(digits) && (rest != "" ==> !Digit(rest[0]))
    ensures AtoiDigits(digits + rest, acc) == acc * Pow10(|digits|) + Val(digits)
  {
    if digits == "" {
      assert "" + rest == rest;
    } else {
      var d, tail := [digits[0]], digits[1..];
      assert digits == d + tail;
      assert (digits + rest)[0] == digits[0] && (digits + rest)[1..] == tail + rest;
      AtoiDigitsIs(tail, rest, 10 * acc + DigitValue(digits[0]));
      ValJoin(d, tail);
      assert Val(d) == DigitValue(digits[0]);
      OneDigitMore(acc, DigitValue(digits[0]), Pow10(|tail|), Val(tail));
    }
  }

  lemma OneDigitMore(acc: nat, d: nat, p: nat, v: nat)
    ensures (10 * acc + d) * p + v == acc * (10 * p) + (d * p + v)
  {
  }

  /** Reading a number: blanks, a sign, digits, and then whatever is not a digit. */
  lemma {:induction false} AtoiReads(blanks: string, sign: string, digits: string, rest: string)
    requires Blanks(blanks) && sign in {"", "+", "-"} && Digits(digits) && digits != ""
    requires rest != "" ==> !Digit(rest[0])
    ensures Atoi(blanks + (sign + (digits + rest))) == if sign == "-" then -(Val(digits) as int) else Val(digits)
  {
    var text := sign + (digits + rest);
    if blanks == "" {
      assert blanks + text == text;
      AtoiDigitsIs(digits, rest, 0);
      if sign == "" {
        assert text == digits + rest && text[0] == digits[0];
      } else {
        assert text[0] == sign[0] && text[1..] == digits + rest;
      }
    } else {
      assert (blanks + text)[0] == blanks[0] && (blanks + text)[1..] == blanks[1..] + text;
      AtoiReads(blanks[1..], sign, digits, rest);
    }
  }

  lemma LimitOfDigits(n: string)
    requires Digits(n) && n != "" && Val(n) <= INT_MAX
    ensures LimitOf(n) == Val(n)
  {
    AtoiReads("", "", n, "");
    assert "" + ("" + (n + "")) == n;
  }

  /** A negative number wraps around, to a limit no channel reaches. */
  lemma NegativeLimitWraps(n: string)
    requires Digits(n) && n != "" && 1 <= Val(n) <= INT_MAX
    ensures LimitOf("-" + n) == 18446744073709551616 - Val(n)
  {
    AtoiReads("", "-", n, "");
    assert "" + ("-" + (n + "")) == "-" + n;
  }

  /** `+l n` sets the limit n and nothing else. */
  lemma LimitIsSet(s: State, operator: int, name: string, n: string)
    requires operator in s.clients && IsMember(s, name, operator) && operator in s.channels[name].operators
    requires Digits(n) && n != "" && 1 <= Val(n) <= INT_MAX
    ensures Obey(s, operator, MODE, [name, "+l", n]) ==
            (s.(channels := s.channels[name := s.channels[name].(limit := Val(n))]), Done)
  {
    LimitOfDigits(n);
  }

  /** From then on exactly as many come in as there is room for: while no key and no
      invite is asked for, a JOIN makes a member exactly while there are fewer than n. */
  lemma LimitHolds(s: State, operator: int, name: string, n: string, fd: int)
    requires operator in s.clients && IsMember(s, name, operator) && operator in s.channels[name].operators
    requires Digits(n) && n != "" && 1 <= Val(n) <= INT_MAX && ValidChannelName(name)
    requires fd in s.clients && !IsMember(s, name, fd) && s.channels[name].key == "" && !s.channels[name].inviteOnly
    ensures
      var t := Obey(s, operator, MODE, [name, "+l", n]).0;
      IsMember(Obey(t, fd, JOIN, [name]).0, name, fd) <==> |s.channels[name].members| < Val(n)
  {
    LimitIsSet(s, operator, name, n);
    AddedIff(Obey(s, operator, MODE, [name, "+l", n]).0, fd, JOIN, [name], name, fd);
  }

  /** After `+k key` exactly those come in who give that key, where no invite is asked for and no limit set. */
  lemma KeyHolds(s: State, operator: int, name: string, key: string, fd: int, given: seq<string>)
    requires operator in s.clients && IsMember(s, name, operator) && operator in s.channels[name].operators
    requires key != "" && ValidChannelName(name)
    requires fd in s.clients && !IsMember(s, name, fd) && s.channels[name].limit == 0 && !s.channels[name].inviteOnly
    ensures
      var t := Obey(s, operator, MODE, [name, "+k", key]).0;
      IsMember(Obey(t, fd, JOIN, [name] + given).0, name, fd) <==> |given| >= 1 && given[0] == key
  {
    var t := Obey(s, operator, MODE, [name, "+k", key]).0;
    KeyIs(s, operator, MODE, [name, "+k", key], name);
    LimitIs(s, operator, MODE, [name, "+k", key], name);
    InviteOnlyIs(s, operator, MODE, [name, "+k", key], name);
    assert t.channels[name].members == s.channels[name].members;
    var params := [name] + given;
    assert params[0] == name && (|given| >= 1 ==> params[1] == given[0]);
    AddedIff(t, fd, JOIN, params, name, fd);
  }

  // ----- runs -----

  /** The client sent the password since it connected. */
  ghost predicate GavePassword(password: string, es: seq<Event>, fd: int) {
    es != [] &&
    var e := es[|es| - 1];
    if e.fd == fd && !e.Line? then false
    else
      || GavePassword(password, es[..|es| - 1], fd)
      || (e.fd == fd && e.command in {"PASS", "pass"} && |e.params| >= 1 && e.params[0] == password)
  }

  lemma PasswordInLine(s: State, e: Event, fd: int)
    requires Inv(s) && Enabled(s, e) && e.Line? && fd in s.clients
    ensures fd in Step(s, e).clients
    ensures Step(s, e).clients[fd].authorized <==>
      || s.clients[fd].authorized
      || (e.fd == fd && e.command in {"PASS", "pass"} && |e.params| >= 1 && e.params[0] == s.password)
  {
    var verb := VerbOf(ToUpper(e.command));
    AuthorizedIff(s, e.fd, verb, e.params, fd);
    if !s.clients[e.fd].registered {
      PassWords(s.clients[e.fd], e.command);
    }
    assert ClientOk(s.clients[fd]);
  }

  /** The two spellings of PASS that the gate lets through. */
  lemma PassWords(c: Client, command: string)
    requires !c.registered
    ensures MayUse(c, command) && VerbOf(ToUpper(command)) == PASS <==> command in {"PASS", "pass"}
  {
    WordsAreVerbs(ToUpper(command));
    if command == "PASS" || command == "pass" {
      UpperIs(command, "PASS");
    }
    if MayUse(c, command) && ToUpper(command) == "PASS" {
      assert |command| == 4 && Upper(command[0]) == 'P' && Upper(command[1]) == 'A';
    }
  }

  /** In every run a connected client is authorized exactly if it gave the password. */
  lemma {:induction false} AuthorizedGavePassword(password: string, es: seq<Event>, fd: int)
    requires IsRun(password, es) && fd in After(password, es).clients
    ensures After(password, es).clients[fd].authorized <==> GavePassword(password, es, fd)
  {
    if es == [] {
    } else {
      LastEvent(password, es);
      var before, e := es[..|es| - 1], es[|es| - 1];
      ReachableStatesAreOk(password, before);
      if e == Accept(fd) {
      } else {
        assert fd in After(password, before).clients by {
          if e.Line? {
            ClientsStay(After(password, before), e, fd);
          }
        }
        AuthorizedGavePassword(password, before, fd);
        if e.Line? {
          PasswordInLine(After(password, before), e, fd);
        }
      }
    }
  }

  lemma ClientsStay(s: State, e: Event, fd: int)
    requires Enabled(s, e) && e.Line? && fd in Step(s, e).clients
    ensures fd in s.clients
  {
    ConnectedAre(s, e);
  }

  /** So everybody who comes into a channel gave it. */
  lemma NewMembersGavePassword(password: string, es: seq<Event>, name: string, fd: int)
    requires IsRun(password, es) && es != [] && IsMember(After(password, es), name, fd)
    ensures IsRun(password, es[..|es| - 1])
    ensures IsMember(After(password, es[..|es| - 1]), name, fd) || GavePassword(password, es, fd)
  {
    LastEvent(password, es);
    var s, e := After(password, es[..|es| - 1]), es[|es| - 1];
    ReachableStatesAreOk(password, es[..|es| - 1]);
    if !IsMember(s, name, fd) {
      assert e.Line? && MayUse(s.clients[e.fd], e.command);
      NewMemberIsSender(s, e.fd, VerbOf(ToUpper(e.command)), e.params, name, fd);
      if !s.clients[fd].registered {
        ChannelsNeedRegistration(s.clients[fd], e.command);
      }
      AuthorizedIff(s, fd, JOIN, e.params, fd);
      assert ClientOk(s.clients[fd]);
      AuthorizedGavePassword(password, es, fd);
    }
  }

  /** And while only clients without a channel disconnect, all members and so all operators gave it. */
  lemma MembersGavePassword(password: string, es: seq<Event>, name: string, fd: int)
    requires IsRun(password, es) && LeavesFirst(password, es) && IsMember(After(password, es), name, fd)
    ensures GavePassword(password, es, fd)
  {
    MembersAreRegistered(password, es);
    ReachableStatesAreOk(password, es);
    assert ClientOk(After(password, es).clients[fd]);
    AuthorizedGavePassword(password, es, fd);
  }

  /** The `k`-th event of a run removes the member. */
  ghost predicate RemovedAt(password: string, es: seq<Event>, name: string, fd: int, k: nat)
    requires k < |es|
  {
    && IsRun(password, es[..k]) && es[k].Line? && es[k].fd in After(password, es[..k]).clients
    && After(password, es[..k]).clients[es[k].fd].registered
    && name in After(password, es[..k]).channels
    && Removes(After(password, es[..k]), es[k].fd, VerbOf(ToUpper(es[k].command)), es[k].params, name, fd)
  }

  lemma StepRemoves(s: State, e: Event, name: string, fd: int)
    requires Enabled(s, e) && IsMember(s, name, fd) && !IsMember(Step(s, e), name, fd)
    ensures e.Line? && s.clients[e.fd].registered && Removes(s, e.fd, VerbOf(ToUpper(e.command)), e.params, name, fd)
  {
    if e.Line? && MayUse(s.clients[e.fd], e.command) {
      RemovedIff(s, e.fd, VerbOf(ToUpper(e.command)), e.params, name, fd);
      if !s.clients[e.fd].registered {
        ChannelsNeedRegistration(s.clients[e.fd], e.command);
      }
    }
  }

  /** Between two points of a run somebody stops being a member only by its own PART or
      the KICK of a then-operator that names it; disconnects remove nobody. */
  lemma {:induction false} MembersLeaveByLine(password: string, es: seq<Event>, name: string, fd: int, i: nat)
    requires IsRun(password, es) && i <= |es| && IsRun(password, es[..i])
    requires IsMember(After(password, es[..i]), name, fd)
    ensures IsMember(After(password, es), name, fd) ||
            exists k :: i <= k < |es| && RemovedAt(password, es, name, fd, k)
  {
    if i == |es| {
      assert es[..i] == es;
    } else {
      var n := |es| - 1;
      LastEvent(password, es);
      var before := es[..n];
      assert before[..i] == es[..i] && forall k :: i <= k <= n ==> before[..k] == es[..k];
      MembersLeaveByLine(password, before, name, fd, i);
      if k :| i <= k < n && RemovedAt(password, before, name, fd, k) {
        assert RemovedAt(password, es, name, fd, k);
      } else if !IsMember(After(password, es), name, fd) {
        StepRemoves(After(password, before), es[n], name, fd);
        assert RemovedAt(password, es, name, fd, n);
      }
    }
  }
}
