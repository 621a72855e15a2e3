/** Who can change what in a channel, and how commands undo and enable one another. */
module IrcAuthority {
  import opened Common
  import opened IrcState
  import opened IrcInvariants
  import opened IrcHistory

  /** The event is a line from a registered client that is an operator of the channel. */
  ghost predicate FromOperator(s: State, e: Event, name: string) {
    && e.Line? && e.fd in s.clients && s.clients[e.fd].registered
    && name in s.channels && e.fd in s.channels[name].members && e.fd in s.channels[name].operators
  }

  ghost predicate SameSettings(a: Channel, b: Channel) {
    && a.name == b.name && a.inviteOnly == b.inviteOnly && a.topicRestricted == b.topicRestricted
    && a.key == b.key && a.limit == b.limit
  }

  /** All that happens to a channel without an operator's doing: `fd` may come or go,
      lose its own operator flag and use up its own invite. */
  ghost predicate OnlyOwnDoing(a: Channel, b: Channel, fd: int) {
    && SameSettings(a, b)
    && a.members - {fd} == b.members - {fd}
    && a.operators - {fd} == b.operators - {fd} && b.operators <= a.operators
    && a.invited - {fd} == b.invited - {fd} && b.invited <= a.invited
  }

  /** Nobody but an operator changes the settings of a channel, removes somebody
      else, makes an operator or gives an invite. */
  lemma OthersActForThemselves(s: State, e: Event, name: string)
    requires Inv(s) && Enabled(s, e) && name in s.channels && !FromOperator(s, e, name)
    ensures
      var t := Step(s, e);
      if name in t.channels then OnlyOwnDoing(s.channels[name], t.channels[name], e.fd)
      else s.channels[name].members == {e.fd}
  {
    assert ChannelOk(name, s.channels[name]);
    match e
    case Accept(_) =>
    case Disconnect(_) =>
    case Line(fd, command, params) => LineForOneself(s, fd, command, params, name);
  }

  lemma LineForOneself(s: State, fd: int, command: string, params: seq<string>, name: string)
    requires fd in s.clients && name in s.channels && ChannelOk(name, s.channels[name])
    requires !FromOperator(s, Line(fd, command, params), name)
    ensures
      var t := Dispatch(s, fd, command, params).0;
      if name in t.channels then OnlyOwnDoing(s.channels[name], t.channels[name], fd)
      else s.channels[name].members == {fd}
  {
    if s.clients[fd].registered {
      ObeyForOneself(s, fd, VerbOf(ToUpper(command)), params, name);
    } else {
      UnregisteredTouchesNoChannel(s, fd, command, params);
    }
  }

  lemma ObeyForOneself(s: State, fd: int, verb: Verb, params: seq<string>, name: string)
    requires fd in s.clients && name in s.channels && ChannelOk(name, s.channels[name])
    requires !(fd in s.channels[name].members && fd in s.channels[name].operators)
    ensures
      var t := Obey(s, fd, verb, params).0;
      if name in t.channels then OnlyOwnDoing(s.channels[name], t.channels[name], fd)
      else s.channels[name].members == {fd}
  {
    if verb == JOIN && |params| >= 1 && params[0] == name {
      AdmitForOneself(s.channels[name], fd, params);
    }
  }

  lemma AdmitForOneself(ch: Channel, fd: int, params: seq<string>)
    requires ch.members != {}
    ensures OnlyOwnDoing(ch, Admit(ch, fd, params).0, fd)
  {
    if fd !in ch.members {
      assert |ch.members + {fd}| == |ch.members| + 1 && |ch.members| > 0;
    }
  }

  /** The `k`-th event of a run is a MODE from somebody who is operator of the channel then. */
  ghost predicate OperatorSetsMode(password: string, es: seq<Event>, name: string, k: nat)
    requires k < |es|
  {
    && IsRun(password, es[..k]) && FromOperator(After(password, es[..k]), es[k], name)
    && VerbOf(ToUpper(es[k].command)) == MODE
  }

  lemma OnlyModeSets(s: State, fd: int, verb: Verb, params: seq<string>, name: string)
    requires fd in s.clients && name in s.channels && name in Obey(s, fd, verb, params).0.channels && verb != MODE
    ensures SameSettings(s.channels[name], Obey(s, fd, verb, params).0.channels[name])
  {
  }

  lemma StepSets(s: State, e: Event, name: string)
    requires Inv(s) && Enabled(s, e) && name in s.channels && name in Step(s, e).channels
    ensures SameSettings(s.channels[name], Step(s, e).channels[name]) ||
            (FromOperator(s, e, name) && VerbOf(ToUpper(e.command)) == MODE)
  {
    if !FromOperator(s, e, name) {
      OthersActForThemselves(s, e, name);
    } else if VerbOf(ToUpper(e.command)) != MODE {
      OnlyModeSets(s, e.fd, VerbOf(ToUpper(e.command)), e.params, name);
    }
  }

  /** Between two points of a run at which, as in between, a channel exists, its key,
      limit and restrictions are the same unless a then-operator sent a MODE. */
  lemma {:induction false} SettingsChangeByOperators(password: string, es: seq<Event>, name: string, i: nat)
    requires IsRun(password, es) && i <= |es| && IsRun(password, es[..i])
    requires forall k :: i <= k <= |es| && IsRun(password, es[..k]) ==> name in After(password, es[..k]).channels
    requires name in After(password, es).channels && name in After(password, es[..i]).channels
    ensures SameSettings(After(password, es[..i]).channels[name], After(password, es).channels[name]) ||
            exists k :: i <= k < |es| && OperatorSetsMode(password, es, name, k)
  {
    assert i == |es| ==> es[..i] == es;
    if i < |es| {
      var n := |es| - 1;
      LastEvent(password, es);
      var before := es[..n];
      assert before[..i] == es[..i] && forall k :: i <= k <= n ==> before[..k] == es[..k];
      ReachableStatesAreOk(password, before);
      if SameSettings(After(password, before).channels[name], After(password, es).channels[name]) {
        SettingsChangeByOperators(password, before, name, i);
        if k :| i <= k < n && OperatorSetsMode(password, before, name, k) {
          assert OperatorSetsMode(password, es, name, k);
        }
      } else {
        StepSets(After(password, before), es[n], name);
        assert OperatorSetsMode(password, es, name, n);
      }
    }
  }

  ghost predicate Changed(s: State, t: State, name: string) {
    if name in s.channels then name !in t.channels || s.channels[name] != t.channels[name] else name in t.channels
  }

  /** No step changes two channels. */
  lemma OneChannelAtMost(s: State, e: Event, a: string, b: string)
    requires Enabled(s, e)
    ensures Changed(s, Step(s, e), a) && Changed(s, Step(s, e), b) ==> a == b
  {
    if e.Line? && Changed(s, Step(s, e), a) && Changed(s, Step(s, e), b) {
      OthersUntouched(s, e.fd, VerbOf(ToUpper(e.command)), e.params, a);
      OthersUntouched(s, e.fd, VerbOf(ToUpper(e.command)), e.params, b);
    }
  }

  /** The channel a command is about is its second parameter for INVITE, its first otherwise. */
  lemma OthersUntouched(s: State, fd: int, verb: Verb, params: seq<string>, name: string)
    requires fd in s.clients && Changed(s, Obey(s, fd, verb, params).0, name)
    ensures if verb == INVITE then |params| >= 2 && name == params[1] else |params| >= 1 && name == params[0]
  {
  }

  /** A JOIN makes a member exactly of someone the settings of the channel let in. */
  lemma JoinAdmitsIff(s: State, fd: int, params: seq<string>, name: string)
    requires fd in s.clients && name in s.channels && fd !in s.channels[name].members
    requires |params| >= 1 && params[0] == name && ValidChannelName(name)
    ensures
      var (ch, t) := (s.channels[name], Join(s, fd, params).0);
      && t.channels[name].members - {fd} == ch.members
      && (fd in t.channels[name].members <==>
            && (ch.inviteOnly ==> fd in ch.invited)
            && (ch.key != "" ==> |params| >= 2 && params[1] == ch.key)
            && (ch.limit > 0 ==> |ch.members| + 1 <= ch.limit))
  {
  }

  /** PART takes back what an admitted JOIN did, apart from an invite of the client:
      a channel made by the JOIN is gone again. */
  lemma PartUndoesJoin(s: State, fd: int, params: seq<string>, message: seq<string>)
    requires Inv(s) && fd in s.clients && Join(s, fd, params).1 == Done
    ensures
      var t := Part(Join(s, fd, params).0, fd, [params[0]] + message).0;
      if params[0] !in s.channels then t == s
      else t == SetChannel(s, params[0], s.channels[params[0]].(invited := s.channels[params[0]].invited - {fd}))
  {
    var name := params[0];
    var ch := if name in s.channels then s.channels[name] else NewChannel(name);
    assert name in s.channels ==> ChannelOk(name, ch);
    var joined, back := Admit(ch, fd, params).0, ch.(invited := ch.invited - {fd});
    LeavingUndoesAdmission(ch, fd, params);
    assert ([name] + message)[0] == name;
    assert Part(SetChannel(s, name, joined), fd, [name] + message).0 ==
      KeepOrDrop(SetChannel(s, name, joined), name, back);
    assert s.channels[name := joined][name := back] == s.channels[name := back];
    assert s.channels[name := joined] - {name} == s.channels - {name};
  }

  lemma LeavingUndoesAdmission(ch: Channel, fd: int, params: seq<string>)
    requires ch.operators <= ch.members && Admit(ch, fd, params).1 == Done
    ensures
      var joined := Admit(ch, fd, params).0;
      && fd in joined.members
      && joined.(members := joined.members - {fd}, operators := joined.operators - {fd},
                 invited := joined.invited - {fd})
         == ch.(invited := ch.invited - {fd})
  {
    var joined := Admit(ch, fd, params).0;
    assert joined.members - {fd} == ch.members && joined.operators - {fd} == ch.operators;
    assert joined.invited - {fd} == ch.invited - {fd};
  }

  /** An invite by an operator lets the invited client into the invite-only channel,
      when it shows the key and there is room, and is used up. */
  lemma InviteLetsIn(s: State, operator: int, nick: string, name: string, fd: int, key: seq<string>)
    requires operator in s.clients && fd in s.clients && ValidChannelName(name)
    requires Invite(s, operator, [nick, name]).1 == Done && Lookup(s.clients, nick) == Some(fd)
    requires s.channels[name].key != "" ==> key == [s.channels[name].key]
    requires s.channels[name].limit > 0 ==> |s.channels[name].members| < s.channels[name].limit
    ensures
      var (t, outcome) := Join(Invite(s, operator, [nick, name]).0, fd, [name] + key);
      outcome == Done && fd in t.channels[name].members &&
        (s.channels[name].inviteOnly ==> fd !in t.channels[name].invited)
  {
    assert ([name] + key)[0] == name && (key != [] ==> ([name] + key)[1] == key[0]);
  }

  /** Granting the operator flag and taking it back leaves everything as it was, for
      somebody who was no operator before. */
  lemma RevokeUndoesGrant(s: State, operator: int, name: string, nick: string, target: int)
    requires operator in s.clients && Mode(s, operator, [name, "+o", nick]).1 == Done
    requires Lookup(s.clients, nick) == Some(target) && target !in s.channels[name].operators
    ensures target in Mode(s, operator, [name, "+o", nick]).0.channels[name].operators
    ensures Mode(Mode(s, operator, [name, "+o", nick]).0, operator, [name, "-o", nick]) == (s, Done)
  {
    var granted := Mode(s, operator, [name, "+o", nick]).0;
    var ch := s.channels[name];
    assert granted.channels[name].operators - {target} == ch.operators;
    assert granted.channels[name := ch] == s.channels;
  }

  /** The setting a switch stands for is off. */
  ghost predicate SwitchedOff(ch: Channel, letter: char) {
    match letter
    case 'l' => ch.limit == 0
    case 'k' => ch.key == ""
    case 't' => !ch.topicRestricted
    case 'i' => !ch.inviteOnly
    case _ => false
  }

  /** Turning a setting on and off again leaves everything as it was; turning it on
      shows, unless the key given is empty. */
  lemma OffUndoesOn(s: State, operator: int, name: string, letter: char, argument: seq<string>)
    requires operator in s.clients && name in s.channels && SwitchedOff(s.channels[name], letter)
    requires Mode(s, operator, [name, ['+', letter]] + argument).1 == Done
    ensures
      var on := Mode(s, operator, [name, ['+', letter]] + argument).0;
      && (SwitchedOff(on.channels[name], letter) <==> letter == 'k' && argument[0] == "")
      && Mode(on, operator, [name, ['-', letter]]) == (s, Done)
  {
    var params := [name, ['+', letter]] + argument;
    assert params[0] == name && params[1] == ['+', letter];
    assert |params| >= 3 ==> params[2] == argument[0];
    var on := Mode(s, operator, params).0;
    assert on.channels[name := s.channels[name]] == s.channels;
  }
}
