/** The merged server from the bytes on: the receive loop takes lines off the buffer of
    a client, parses each and hands it to the dispatcher (merged_irc/srcs/Server.cpp). */
module MergedServer {
  import opened Common
  import opened IrcState
  import opened IrcInvariants
  import opened IrcAuthority
  import opened IrcServer
  import opened Framing
  import opened MergedParser

  /** What the server notices: connections, complete lines, and clients that are gone. */
  datatype Notice = Connected(fd: int) | Wrote(fd: int, line: string) | Gone(fd: int)

  /** The event a notice is for the commands: a line is parsed first. */
  ghost function EventOf(n: Notice): Event {
    match n
    case Connected(fd) => Accept(fd)
    case Wrote(fd, line) => Line(fd, MergedParse(line).command, MergedParse(line).params)
    case Gone(fd) => Disconnect(fd)
  }

  ghost function EventsOf(ns: seq<Notice>): (es: seq<Event>)
    ensures |es| == |ns| && forall k :: 0 <= k < |ns| ==> es[k] == EventOf(ns[k])
  {
    seq(|ns|, k requires 0 <= k < |ns| => EventOf(ns[k]))
  }

  ghost function WroteAll(fd: int, lines: seq<string>): seq<Notice> {
    seq(|lines|, k requires 0 <= k < |lines| => Wrote(fd, lines[k]))
  }

  /** What is noticed of the texts `fed` and then `more`, behind what was left before. */
  lemma WroteMore(ns: seq<Notice>, fd: int, start: string, fed: string, more: string)
    ensures ns + WroteAll(fd, Lines(start + (fed + more))) ==
            (ns + WroteAll(fd, Lines(start + fed))) + WroteAll(fd, Lines(Rest(start + fed) + more))
    ensures Rest(start + (fed + more)) == Rest(Rest(start + fed) + more)
  {
    Assoc(start, fed, more);
    CutAnywhere(start + fed, more);
    WroteJoin(ns, fd, Lines(start + fed), Lines(Rest(start + fed) + more));
  }

  lemma WroteJoin(ns: seq<Notice>, fd: int, a: seq<string>, b: seq<string>)
    ensures ns + WroteAll(fd, a + b) == (ns + WroteAll(fd, a)) + WroteAll(fd, b)
  {
  }

  // ----- runs, state by state -----

  ghost predicate StepAt(states: seq<State>, ns: seq<Notice>, k: nat)
    requires k < |ns| && k + 1 < |states|
  {
    Enabled(states[k], EventOf(ns[k])) && states[k + 1] == Step(states[k], EventOf(ns[k]))
  }

  /** The states a server goes through, one more than notices. */
  ghost predicate Trace(password: string, ns: seq<Notice>, states: seq<State>) {
    && |states| == |ns| + 1 && states[0] == State(password, map[], map[])
    && forall k :: 0 <= k < |ns| ==> StepAt(states, ns, k)
  }

  lemma TraceGrows(password: string, ns: seq<Notice>, states: seq<State>, n: Notice)
    requires Trace(password, ns, states) && Enabled(states[|ns|], EventOf(n))
    ensures Trace(password, ns + [n], states + [Step(states[|ns|], EventOf(n))])
  {
    var ns', states' := ns + [n], states + [Step(states[|ns|], EventOf(n))];
    forall k | 0 <= k < |ns'| ensures StepAt(states', ns', k) {
      if k < |ns| {
        assert StepAt(states, ns, k);
      }
    }
  }

  lemma {:induction false} TraceIsRun(password: string, ns: seq<Notice>, states: seq<State>)
    requires Trace(password, ns, states)
    ensures IsRun(password, EventsOf(ns)) && After(password, EventsOf(ns)) == states[|ns|]
  {
    if ns == [] {
    } else {
      var n := |ns| - 1;
      var earlier, before := states[..n + 1], ns[..n];
      forall k | 0 <= k < n ensures StepAt(earlier, before, k) {
        assert StepAt(states, ns, k);
      }
      TraceIsRun(password, before, earlier);
      assert StepAt(states, ns, n);
      RunGoesOn(password, EventsOf(ns[..n]), EventOf(ns[n]));
      assert EventsOf(ns) == EventsOf(ns[..n]) + [EventOf(ns[n])];
    }
  }

  /** The descriptors in use. */
  ghost function KeysAfter(fds: set<int>, n: Notice): set<int> {
    match n
    case Connected(fd) => fds + {fd}
    case Wrote(_, _) => fds
    case Gone(fd) => fds - {fd}
  }

  lemma StepKeys(s: State, n: Notice)
    requires Enabled(s, EventOf(n))
    ensures Step(s, EventOf(n)).clients.Keys == KeysAfter(s.clients.Keys, n)
  {
    var e := EventOf(n);
    if e.Line? && MayUse(s.clients[e.fd], e.command) {
      ObeyKeepsClients(s, e.fd, VerbOf(ToUpper(e.command)), e.params);
    }
  }

  /** The next state of a trace. */
  lemma TraceGoesOn(password: string, ns: seq<Notice>, states: seq<State>, n: Notice) returns (next: State)
    requires Trace(password, ns, states) && Enabled(states[|ns|], EventOf(n))
    ensures next == StepWithOutcome(states[|ns|], EventOf(n)).0
    ensures Trace(password, ns + [n], states + [next])
    ensures next.clients.Keys == KeysAfter(states[|ns|].clients.Keys, n)
  {
    next := Step(states[|ns|], EventOf(n));
    TraceGrows(password, ns, states, n);
    StepKeys(states[|ns|], n);
  }

  /** One more step of the server. */
  method ServeNotice(server: Server, e: Event, ghost n: Notice, ghost ns: seq<Notice>, ghost states: seq<State>)
    returns (ghost next: State)
    requires server.Valid() && Trace(server.password, ns, states) && server.View() == states[|ns|]
    requires (if n.Connected? then n.fd !in server.clients else n.fd in server.clients) && e == EventOf(n)
    modifies server`clients, server`channels, server.clients.Values, server.channels.Values
    ensures server.Valid() && server.View() == next && Trace(server.password, ns + [n], states + [next])
    ensures server.clients.Keys == KeysAfter(old(server.clients.Keys), n)
    ensures fresh(server.clients.Values - old(server.clients.Values))
    ensures fresh(server.channels.Values - old(server.channels.Values))
  {
    assert states[|ns|].clients.Keys == server.clients.Keys;
    next := TraceGoesOn(server.password, ns, states, n);
    var _ := server.Serve(e);
    assert server.View().clients.Keys == server.clients.Keys;
  }

  /** The server with the receive buffers of its clients. */
  class Reception {
    const server: Server
    var buffers: map<int, string>
    ghost var noticed: seq<Notice>  // what happened so far
    ghost var states: seq<State>    // the states it led through
    ghost var repr: set<object>     // the server and its clients and channels

    /** The server has obeyed what was noticed so far. */
    ghost predicate Follows()
      reads this`noticed, this`states, this`repr, repr
    {
      && this !in repr && server in repr && server.clients.Values <= repr && server.channels.Values <= repr
      && server.Valid() && Trace(server.password, noticed, states) && server.View() == states[|noticed|]
    }

    /** And no complete line is left in the buffer of a client. */
    ghost predicate Valid()
      reads this, repr
    {
      Follows() && buffers.Keys == server.clients.Keys && forall fd :: fd in buffers ==> !HasCrlf(buffers[fd])
    }

    constructor (password: string)
      ensures Valid() && noticed == [] && buffers == map[] && server.password == password && fresh(repr)
    {
      var created := new Server(password);
      server, buffers, repr := created, map[], {created};
      noticed, states := [], [State(password, map[], map[])];
    }

    method AcceptConnection(fd: int)
      requires Valid() && fd !in buffers
      modifies this, repr
      ensures Valid() && fresh(repr - old(repr))
      ensures noticed == old(noticed) + [Connected(fd)] && buffers == old(buffers)[fd := ""]
    {
      Happens(Accept(fd), Connected(fd));
      buffers := buffers[fd := ""];
    }

    method RemoveClient(fd: int)
      requires Valid() && fd in buffers
      modifies this, repr
      ensures Valid() && fresh(repr - old(repr))
      ensures noticed == old(noticed) + [Gone(fd)] && buffers == old(buffers) - {fd}
    {
      Happens(Disconnect(fd), Gone(fd));
      buffers := buffers - {fd};
    }

    /** The server serves the event of one notice. */
    method Happens(e: Event, ghost n: Notice)
      requires Follows() && e == EventOf(n)
      requires if n.Connected? then n.fd !in server.clients else n.fd in server.clients
      modifies this`noticed, this`states, this`repr, repr
      ensures Follows() && fresh(repr - old(repr)) && noticed == old(noticed) + [n]
      ensures server.clients.Keys == KeysAfter(old(server.clients.Keys), n)
    {
      ghost var next := ServeNotice(server, e, n, noticed, states);
      repr := repr + server.clients.Values + server.channels.Values;
      noticed, states := noticed + [n], states + [next];
    }

    /** One read: the lines that are complete now are dispatched in order, what is left stays in the buffer. */
    method HandleClient(fd: int, buff: string)
      requires Valid() && fd in buffers
      modifies this, repr
      ensures Valid() && fresh(repr - old(repr))
      ensures noticed == old(noticed) + WroteAll(fd, Lines(old(buffers[fd]) + CString(buff)))
      ensures buffers == old(buffers)[fd := Rest(old(buffers[fd]) + CString(buff))]
    {
      var recvBuffer := buffers[fd] + CString(buff);
      recvBuffer := TakeLines(fd, recvBuffer);
      FinishedRest(buffers[fd] + CString(buff));
      buffers := buffers[fd := recvBuffer];
    }

    /** The loop: while there is a CRLF, the line in front of it is erased from the buffer and dispatched. */
    method TakeLines(fd: int, text: string) returns (recvBuffer: string)
      requires Follows() && fd in server.clients
      modifies this`noticed, this`states, this`repr, repr
      ensures Follows() && fresh(repr - old(repr)) && server.clients.Keys == old(server.clients.Keys)
      ensures noticed == old(noticed) + WroteAll(fd, Lines(text)) && recvBuffer == Rest(text)
    {
      recvBuffer := text;
      var pos := FindCrlf(recvBuffer);
      while pos.Some?
        invariant Follows() && fresh(repr - old(repr)) && server.clients.Keys == old(server.clients.Keys)
        invariant pos == FindCrlf(recvBuffer) && Midway(old(noticed), noticed, fd, text, recvBuffer)
        decreases |recvBuffer|
      {
        var line := recvBuffer[..pos.value];
        Onward(old(noticed), noticed, fd, text, recvBuffer, pos.value);
        recvBuffer := recvBuffer[pos.value + 2..];
        HandleLine(fd, line);
        pos := FindCrlf(recvBuffer);
      }
      Finished(old(noticed), noticed, fd, text, recvBuffer);
    }

    method HandleLine(fd: int, line: string)
      requires Follows() && fd in server.clients
      modifies this`noticed, this`states, this`repr, repr
      ensures Follows() && fresh(repr - old(repr)) && server.clients.Keys == old(server.clients.Keys)
      ensures noticed == old(noticed) + [Wrote(fd, line)]
    {
      var parsed := ParseCmd(line);
      Happens(Line(fd, parsed.cmd, parsed.GetParams()), Wrote(fd, line));
    }

    /** However the bytes of a client are cut into reads, the server gets the lines of what
        is kept of them, and the same remainder is left. */
    method HandleStream(fd: int, chunks: seq<string>)
      requires Valid() && fd in buffers
      modifies this, repr
      ensures Valid() && fresh(repr - old(repr))
      ensures noticed == old(noticed) + WroteAll(fd, Lines(old(buffers[fd]) + Kept(chunks)))
      ensures buffers == old(buffers)[fd := Rest(old(buffers[fd]) + Kept(chunks))]
    {
      ghost var start := buffers[fd];
      assert start + "" == start && Lines(start) == [] && Rest(start) == start;
      var i := 0;
      while i < |chunks|
        invariant 0 <= i <= |chunks| && Valid() && fresh(repr - old(repr))
        invariant noticed == old(noticed) + WroteAll(fd, Lines(start + Kept(chunks[..i])))
        invariant buffers == old(buffers)[fd := Rest(start + Kept(chunks[..i]))]
      {
        NextChunk(chunks, i);
        WroteMore(old(noticed), fd, start, Kept(chunks[..i]), CString(chunks[i]));
        HandleClient(fd, chunks[i]);
        i := i + 1;
      }
      assert chunks[..i] == chunks;
    }

    /** Whatever the bytes, the server is in the state of a run, so that every invariant of
        runs holds of it. */
    lemma StateIsReached()
      requires Valid()
      ensures IsRun(server.password, EventsOf(noticed))
      ensures server.View() == After(server.password, EventsOf(noticed)) && Inv(server.View())
    {
      TraceIsRun(server.password, noticed, states);
      ReachableStatesAreOk(server.password, EventsOf(noticed));
    }
  }

  // ----- the loop over the lines of one text -----

  /** Since `before`, all lines of the text but those of `left` were noticed. */
  ghost predicate Midway(before: seq<Notice>, now: seq<Notice>, fd: int, text: string, left: string) {
    && now + WroteAll(fd, Lines(left)) == before + WroteAll(fd, Lines(text))
    && Rest(left) == Rest(text)
  }

  lemma Onward(before: seq<Notice>, now: seq<Notice>, fd: int, text: string, left: string, p: nat)
    requires Midway(before, now, fd, text, left) && FindCrlf(left) == Some(p)
    ensures Midway(before, now + [Wrote(fd, left[..p])], fd, text, left[p + 2..])
  {
    WroteJoin(now, fd, [left[..p]], Lines(left[p + 2..]));
    assert WroteAll(fd, [left[..p]]) == [Wrote(fd, left[..p])];
  }

  lemma Finished(before: seq<Notice>, now: seq<Notice>, fd: int, text: string, left: string)
    requires Midway(before, now, fd, text, left) && FindCrlf(left).None?
    ensures now == before + WroteAll(fd, Lines(text)) && left == Rest(text)
  {
    assert now + WroteAll(fd, []) == now;
  }

  lemma FinishedRest(text: string)
    ensures !HasCrlf(Rest(text))
  {
    SplitIsFaithful(text);
  }

  // ----- what lines can carry -----

  /** A line that was received gives no handler an empty parameter. */
  lemma ReceivedParamsAreFilled(n: Notice)
    ensures EventOf(n).Line? ==> "" !in EventOf(n).params
  {
    if n.Wrote? {
      ParamsAreNotEmpty(n.line);
    }
  }

  /** On received lines turning a setting on always shows, a key included. */
  lemma ReceivedModeShows(s: State, operator: int, line: string, params: seq<string>, name: string, letter: char,
                          argument: seq<string>)
    requires operator in s.clients && name in s.channels && SwitchedOff(s.channels[name], letter)
    requires params == MergedParse(line).params && params == [name, ['+', letter]] + argument
    requires Mode(s, operator, params).1 == Done
    ensures !SwitchedOff(Mode(s, operator, params).0.channels[name], letter)
  {
    ReceivedParamsAreFilled(Wrote(operator, line));
    assert forall p :: p in argument ==> p in params;
    FilledModeShows(s, operator, name, letter, argument);
  }

  lemma FilledModeShows(s: State, operator: int, name: string, letter: char, argument: seq<string>)
    requires operator in s.clients && name in s.channels && SwitchedOff(s.channels[name], letter) && "" !in argument
    requires Mode(s, operator, [name, ['+', letter]] + argument).1 == Done
    ensures !SwitchedOff(Mode(s, operator, [name, ['+', letter]] + argument).0.channels[name], letter)
  {
    OffUndoesOn(s, operator, name, letter, argument);
  }
}
