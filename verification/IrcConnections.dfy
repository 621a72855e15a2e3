/** Where operators and invites come from, per connection. Channels know clients by their
    descriptors, and the system hands a descriptor out again after a disconnect. */
module IrcConnections {
  import opened IrcState
  import opened IrcInvariants
  import opened IrcHistory

  /** Who is entitled after one more event when a new connection starts without
      entitlements, whoever had its descriptor before. */
  ghost function NextEntitledByConnection(had: set<int>, s: State, e: Event, name: string): set<int>
    requires Enabled(s, e)
  {
    NextEntitled(had, AskedBy(s, e, name, OpOn), AskedBy(s, e, name, OpOff), s, e.fd, Step(s, e), name) -
    if e.Accept? then {e.fd} else {}
  }

  ghost function EntitledByConnection(password: string, es: seq<Event>, name: string): set<int>
    requires IsRun(password, es)
  {
    if es == [] then {}
    else
      LastEvent(password, es);
      var before := es[..|es| - 1];
      var had := EntitledByConnection(password, before, name);
      NextEntitledByConnection(had, After(password, before), es[|es| - 1], name)
  }

  ghost predicate OperatorsEarnedIt(password: string, es: seq<Event>, name: string)
    requires IsRun(password, es)
  {
    OperatorsOf(After(password, es), name) == EntitledByConnection(password, es, name)
  }

  /** No connection is given the descriptor of somebody still listed as operator of the channel. */
  ghost predicate NoOperatorReplaced(password: string, es: seq<Event>, name: string)
    requires IsRun(password, es)
  {
    forall k :: 0 <= k < |es| && es[k].Accept? && IsRun(password, es[..k]) ==>
      es[k].fd !in OperatorsOf(After(password, es[..k]), name)
  }

  /** One event keeps every operator's claim exactly if it does not accept an operator's descriptor. */
  lemma EarnedOneMore(password: string, es: seq<Event>, name: string)
    requires IsRun(password, es) && es != []
    ensures IsRun(password, es[..|es| - 1])
    ensures
      var e := es[|es| - 1];
      OperatorsEarnedIt(password, es[..|es| - 1], name) ==>
      (OperatorsEarnedIt(password, es, name) <==>
        !(e.Accept? && e.fd in OperatorsOf(After(password, es[..|es| - 1]), name)))
  {
    LastEvent(password, es);
    ReachableStatesAreOk(password, es[..|es| - 1]);
    StepFollowsEntitlement(After(password, es[..|es| - 1]), es[|es| - 1], name);
  }

  lemma {:induction false} EarnedAlong(password: string, es: seq<Event>, name: string)
    requires IsRun(password, es) && NoOperatorReplaced(password, es, name)
    ensures OperatorsEarnedIt(password, es, name)
  {
    if es == [] {
    } else {
      LastEvent(password, es);
      var before := es[..|es| - 1];
      forall k | 0 <= k < |before| && before[k].Accept? && IsRun(password, before[..k])
        ensures before[k].fd !in OperatorsOf(After(password, before[..k]), name)
      {
        assert before[..k] == es[..k] && before[k] == es[k];
      }
      EarnedAlong(password, before, name);
      EarnedOneMore(password, es, name);
    }
  }

  /** Operator provenance per connection: throughout a run the operators are exactly the
      connections that created the channel or were granted +o by a then-operator, and are
      members since, if and only if no descriptor of a listed operator is handed out again. */
  lemma OperatorsEarnedItIff(password: string, es: seq<Event>, name: string)
    requires IsRun(password, es)
    ensures
      (forall k :: 0 <= k <= |es| && IsRun(password, es[..k]) ==> OperatorsEarnedIt(password, es[..k], name))
      <==> NoOperatorReplaced(password, es, name)
  {
    if NoOperatorReplaced(password, es, name) {
      forall k | 0 <= k <= |es| && IsRun(password, es[..k]) ensures OperatorsEarnedIt(password, es[..k], name) {
        EarnedInPrefix(password, es, name, k);
      }
    } else {
      var k :| 0 <= k < |es| && es[k].Accept? && IsRun(password, es[..k]) &&
               es[k].fd in OperatorsOf(After(password, es[..k]), name);
      OperatorReplaced(password, es, name, k);
    }
  }

  lemma OperatorReplaced(password: string, es: seq<Event>, name: string, k: nat)
    requires IsRun(password, es) && k < |es| && es[k].Accept? && IsRun(password, es[..k])
    requires es[k].fd in OperatorsOf(After(password, es[..k]), name)
    ensures IsRun(password, es[..k + 1])
    ensures !(OperatorsEarnedIt(password, es[..k], name) && OperatorsEarnedIt(password, es[..k + 1], name))
  {
    PrefixOfRun(password, es, k + 1);
    assert es[..k + 1][..k] == es[..k];
    EarnedOneMore(password, es[..k + 1], name);
  }

  lemma EarnedInPrefix(password: string, es: seq<Event>, name: string, k: nat)
    requires IsRun(password, es) && NoOperatorReplaced(password, es, name)
    requires k <= |es| && IsRun(password, es[..k])
    ensures OperatorsEarnedIt(password, es[..k], name)
  {
    var before := es[..k];
    forall m | 0 <= m < k && before[m].Accept? && IsRun(password, before[..m])
      ensures before[m].fd !in OperatorsOf(After(password, before[..m]), name)
    {
      assert before[..m] == es[..m] && before[m] == es[m];
    }
    EarnedAlong(password, before, name);
  }

  /** Without that condition it fails: somebody opens a channel and disconnects, and the
      next connection, not even authorized, is listed as operator. */
  lemma ReusedDescriptor(fd: int)
    ensures
      var es := OpensRoom(fd) + [Disconnect(fd)] + [Accept(fd)];
      && IsRun("p", es) && After("p", es).clients[fd] == Client("", "", "", false, false)
      && OperatorsOf(After("p", es), "#room") == {fd} && fd in After("p", es).channels["#room"].members
      && !OperatorsEarnedIt("p", es, "#room")
  {
    OpensRoomIsRun(fd);
    var gone := OpensRoom(fd) + [Disconnect(fd)];
    RunGoesOn("p", OpensRoom(fd), Disconnect(fd));
    RunGoesOn("p", gone, Accept(fd));
    assert fd !in EntitledByConnection("p", gone + [Accept(fd)], "#room");
  }

  // ----- invites -----

  /** The holder uses the invite, up to come in or in vain. */
  ghost predicate Uses(s: State, e: Event, name: string, fd: int)
    requires Enabled(s, e) && name in s.channels
  {
    && e.Line? && e.fd == fd && MayUse(s.clients[fd], e.command)
    && ( || ShowsInvite(s, VerbOf(ToUpper(e.command)), e.params, name, fd)
         || WastesOwn(s, VerbOf(ToUpper(e.command)), e.params, name, fd))
  }

  /** Whether a connection has a claim to the channel's invite for its descriptor after one
      more event: once invited, until it uses the invite. A new connection has none. */
  ghost predicate NextClaim(had: bool, s: State, e: Event, name: string, fd: int)
    requires Enabled(s, e)
  {
    && name in s.channels && name in Step(s, e).channels && e != Accept(fd)
    && (Invites(s, e, name, fd) || (had && !Uses(s, e, name, fd)))
  }

  ghost predicate Claims(password: string, es: seq<Event>, name: string, fd: int)
    requires IsRun(password, es)
  {
    if es == [] then false
    else
      LastEvent(password, es);
      var before := es[..|es| - 1];
      NextClaim(Claims(password, before, name, fd), After(password, before), es[|es| - 1], name, fd)
  }

  ghost predicate InviteIsClaimed(password: string, es: seq<Event>, name: string, fd: int)
    requires IsRun(password, es)
  {
    Held(After(password, es), name, fd) == 1 <==> Claims(password, es, name, fd)
  }

  /** An invite moves as claims do, but for new connections. */
  lemma InviteFollowsClaim(s: State, e: Event, name: string, fd: int)
    requires Enabled(s, e)
    ensures
      var held := Held(s, name, fd) == 1;
      Held(Step(s, e), name, fd) == 1 <==> if e == Accept(fd) then held else NextClaim(held, s, e, name, fd)
  {
    match e
    case Accept(_) =>
    case Disconnect(_) =>
    case Line(sender, command, params) =>
      if MayUse(s.clients[sender], command) {
        LineFollowsClaim(s, sender, command, params, name, fd);
      }
  }

  lemma LineFollowsClaim(s: State, sender: int, command: string, params: seq<string>, name: string, fd: int)
    requires sender in s.clients && MayUse(s.clients[sender], command)
    ensures
      var e := Line(sender, command, params);
      Held(Step(s, e), name, fd) == 1 <==> NextClaim(Held(s, name, fd) == 1, s, e, name, fd)
  {
    var verb := VerbOf(ToUpper(command));
    var t := Obey(s, sender, verb, params).0;
    if name in s.channels && name in t.channels {
      if Held(t, name, fd) > Held(s, name, fd) {
        InvitesComeFromInvite(s, sender, verb, params, name, fd);
      }
      if Held(s, name, fd) == 1 {
        InvitesGo(s, sender, verb, params, name, fd);
      }
    } else if name in t.channels {
      NewChannelHasNoInvites(s, sender, verb, params, name);
    }
  }

  lemma NewChannelHasNoInvites(s: State, fd: int, verb: Verb, params: seq<string>, name: string)
    requires fd in s.clients && name !in s.channels && name in Obey(s, fd, verb, params).0.channels
    ensures Obey(s, fd, verb, params).0.channels[name].invited == {}
  {
  }

  /** No connection is given the descriptor of somebody whose invite is still held. */
  ghost predicate NoInviteInherited(password: string, es: seq<Event>, name: string, fd: int)
    requires IsRun(password, es)
  {
    forall k :: 0 <= k < |es| && es[k] == Accept(fd) && IsRun(password, es[..k]) ==>
      Held(After(password, es[..k]), name, fd) == 0
  }

  /** One event keeps the claim to a held invite exactly if it does not accept its descriptor. */
  lemma ClaimedOneMore(password: string, es: seq<Event>, name: string, fd: int)
    requires IsRun(password, es) && es != []
    ensures IsRun(password, es[..|es| - 1])
    ensures
      var before := es[..|es| - 1];
      InviteIsClaimed(password, before, name, fd) ==>
      (InviteIsClaimed(password, es, name, fd) <==>
        !(es[|es| - 1] == Accept(fd) && Held(After(password, before), name, fd) == 1))
  {
    LastEvent(password, es);
    InviteFollowsClaim(After(password, es[..|es| - 1]), es[|es| - 1], name, fd);
  }

  lemma {:induction false} ClaimedAlong(password: string, es: seq<Event>, name: string, fd: int)
    requires IsRun(password, es) && NoInviteInherited(password, es, name, fd)
    ensures InviteIsClaimed(password, es, name, fd)
  {
    if es == [] {
    } else {
      LastEvent(password, es);
      var before := es[..|es| - 1];
      forall k | 0 <= k < |before| && before[k] == Accept(fd) && IsRun(password, before[..k])
        ensures Held(After(password, before[..k]), name, fd) == 0
      {
        assert before[..k] == es[..k] && before[k] == es[k];
      }
      ClaimedAlong(password, before, name, fd);
      ClaimedOneMore(password, es, name, fd);
    }
  }

  /** Invite provenance per connection: throughout a run an invite is held exactly for a
      connection that was invited and has not used it, if and only if its descriptor is
      not handed out again while the invite is held. */
  lemma InviteIsClaimedIff(password: string, es: seq<Event>, name: string, fd: int)
    requires IsRun(password, es)
    ensures
      (forall k :: 0 <= k <= |es| && IsRun(password, es[..k]) ==> InviteIsClaimed(password, es[..k], name, fd))
      <==> NoInviteInherited(password, es, name, fd)
  {
    if NoInviteInherited(password, es, name, fd) {
      forall k | 0 <= k <= |es| && IsRun(password, es[..k]) ensures InviteIsClaimed(password, es[..k], name, fd) {
        ClaimedInPrefix(password, es, name, fd, k);
      }
    } else {
      var k :| 0 <= k < |es| && es[k] == Accept(fd) && IsRun(password, es[..k]) &&
               Held(After(password, es[..k]), name, fd) != 0;
      InviteInherited(password, es, name, fd, k);
    }
  }

  lemma ClaimedInPrefix(password: string, es: seq<Event>, name: string, fd: int, k: nat)
    requires IsRun(password, es) && NoInviteInherited(password, es, name, fd)
    requires k <= |es| && IsRun(password, es[..k])
    ensures InviteIsClaimed(password, es[..k], name, fd)
  {
    var before := es[..k];
    forall m | 0 <= m < k && before[m] == Accept(fd) && IsRun(password, before[..m])
      ensures Held(After(password, before[..m]), name, fd) == 0
    {
      assert before[..m] == es[..m] && before[m] == es[m];
    }
    ClaimedAlong(password, before, name, fd);
  }

  lemma InviteInherited(password: string, es: seq<Event>, name: string, fd: int, k: nat)
    requires IsRun(password, es) && k < |es| && es[k] == Accept(fd) && IsRun(password, es[..k])
    requires Held(After(password, es[..k]), name, fd) == 1
    ensures IsRun(password, es[..k + 1])
    ensures !(InviteIsClaimed(password, es[..k], name, fd) && InviteIsClaimed(password, es[..k + 1], name, fd))
  {
    PrefixOfRun(password, es, k + 1);
    assert es[..k + 1][..k] == es[..k];
    ClaimedOneMore(password, es[..k + 1], name, fd);
  }

  /** Without that condition it fails: a guest is invited and disconnects, and the next
      connection, not even authorized, holds the invite. */
  lemma ReusedInvite()
    ensures
      var es := InvitesGuest() + [Disconnect(2)] + [Accept(2)];
      && IsRun("p", es) && After("p", es).clients[2] == Client("", "", "", false, false)
      && Held(After("p", es), "#room", 2) == 1 && !InviteIsClaimed("p", es, "#room", 2)
  {
    InvitesGuestIsRun();
    var gone := InvitesGuest() + [Disconnect(2)];
    RunGoesOn("p", InvitesGuest(), Disconnect(2));
    RunGoesOn("p", gone, Accept(2));
    assert !Claims("p", gone + [Accept(2)], "#room", 2);
  }
}
