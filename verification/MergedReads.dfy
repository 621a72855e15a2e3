/** Many clients at once: connections, reads and disconnects in any order, as the poll
    loop of the merged server meets them (merged_irc/srcs/Server.cpp). */
module MergedReads {
  import opened Common
  import opened Framing
  import opened MergedServer

  /** What the poll loop meets. */
  datatype Input = Opened(fd: int) | Sent(fd: int, chunk: string) | Closed(fd: int)

  ghost function OpenAfter(ins: seq<Input>): set<int> {
    if ins == [] then {}
    else
      var fds := OpenAfter(ins[..|ins| - 1]);
      match ins[|ins| - 1]
      case Opened(fd) => fds + {fd}
      case Sent(_, _) => fds
      case Closed(fd) => fds - {fd}
  }

  /** Only descriptors not in use are opened, and only open ones send or are closed. */
  ghost predicate Possible(ins: seq<Input>) {
    ins != [] ==>
      var before, last := ins[..|ins| - 1], ins[|ins| - 1];
      Possible(before) && (last.Opened? <==> last.fd !in OpenAfter(before))
  }

  /** The chunks of a descriptor since it was last opened or closed. */
  ghost function ChunksSince(ins: seq<Input>, fd: int): seq<string> {
    if ins == [] then []
    else
      var before, last := ins[..|ins| - 1], ins[|ins| - 1];
      if last.fd != fd then ChunksSince(before, fd)
      else if last.Sent? then ChunksSince(before, fd) + [last.chunk]
      else []
  }

  /** What is to be noticed of a descriptor up to its last opening or closing. */
  ghost function ToldBefore(ins: seq<Input>, fd: int): seq<Notice>
    decreases |ins|, 0
  {
    if ins == [] then []
    else
      var before, last := ins[..|ins| - 1], ins[|ins| - 1];
      if last.fd != fd || last.Sent? then ToldBefore(before, fd)
      else Told(before, fd) + [if last.Opened? then Connected(fd) else Gone(fd)]
  }

  /** What is to be noticed of a descriptor: its openings and closings, and in between the
      lines of what is kept of its own chunks. */
  ghost function Told(ins: seq<Input>, fd: int): seq<Notice>
    decreases |ins|, 1
  {
    ToldBefore(ins, fd) + WroteAll(fd, Lines(Kept(ChunksSince(ins, fd))))
  }

  /** The notices about one descriptor. */
  ghost function Only(ns: seq<Notice>, fd: int): seq<Notice> {
    if ns == [] then []
    else Only(ns[..|ns| - 1], fd) + if ns[|ns| - 1].fd == fd then [ns[|ns| - 1]] else []
  }

  lemma {:induction false} OnlyJoin(a: seq<Notice>, b: seq<Notice>, fd: int)
    ensures Only(a + b, fd) == Only(a, fd) + Only(b, fd)
  {
    if b == [] {
      assert a + b == a;
    } else {
      var n := |b| - 1;
      assert (a + b)[..|a + b| - 1] == a + b[..n];
      OnlyJoin(a, b[..n], fd);
    }
  }

  lemma {:induction false} OnlyWrote(f: int, lines: seq<string>, fd: int)
    ensures Only(WroteAll(f, lines), fd) == if f == fd then WroteAll(f, lines) else []
  {
    if lines == [] {
    } else {
      var n := |lines| - 1;
      OnlyWrote(f, lines[..n], fd);
      assert WroteAll(f, lines)[..n] == WroteAll(f, lines[..n]);
      EndsInLast(WroteAll(f, lines));
    }
  }

  lemma OnlyOne(ns: seq<Notice>, n: Notice, fd: int)
    ensures Only(ns + [n], fd) == Only(ns, fd) + if n.fd == fd then [n] else []
  {
    assert (ns + [n])[..|ns|] == ns;
  }

  /** Every descriptor has been told of as it should, and its buffer holds what is left of its own chunks. */
  ghost predicate Served(ns: seq<Notice>, buffers: map<int, string>, ins: seq<Input>) {
    && buffers.Keys == OpenAfter(ins)
    && (forall fd :: Only(ns, fd) == Told(ins, fd))
    && (forall fd :: fd in buffers ==> buffers[fd] == Rest(Kept(ChunksSince(ins, fd))))
  }

  /** Another descriptor's input changes nothing. */
  lemma OthersUnchanged(ins: seq<Input>, input: Input, fd: int)
    requires input.fd != fd
    ensures ChunksSince(ins + [input], fd) == ChunksSince(ins, fd)
    ensures Told(ins + [input], fd) == Told(ins, fd)
  {
    assert (ins + [input])[..|ins|] == ins;
  }

  lemma ServedOpened(ns: seq<Notice>, buffers: map<int, string>, ins: seq<Input>, f: int)
    requires Served(ns, buffers, ins)
    ensures Served(ns + [Connected(f)], buffers[f := ""], ins + [Opened(f)])
  {
    var ins' := ins + [Opened(f)];
    assert ins'[..|ins|] == ins;
    forall fd ensures Only(ns + [Connected(f)], fd) == Told(ins', fd) {
      OnlyOne(ns, Connected(f), fd);
      StartsAnew(ins, Opened(f), fd);
    }
    forall fd | fd in buffers[f := ""] ensures buffers[f := ""][fd] == Rest(Kept(ChunksSince(ins', fd))) {
      StartsAnew(ins, Opened(f), fd);
    }
  }

  lemma ServedClosed(ns: seq<Notice>, buffers: map<int, string>, ins: seq<Input>, f: int)
    requires Served(ns, buffers, ins)
    ensures Served(ns + [Gone(f)], buffers - {f}, ins + [Closed(f)])
  {
    var ins' := ins + [Closed(f)];
    assert ins'[..|ins|] == ins;
    forall fd ensures Only(ns + [Gone(f)], fd) == Told(ins', fd) {
      OnlyOne(ns, Gone(f), fd);
      StartsAnew(ins, Closed(f), fd);
    }
    forall fd | fd in buffers - {f} ensures (buffers - {f})[fd] == Rest(Kept(ChunksSince(ins', fd))) {
      StartsAnew(ins, Closed(f), fd);
    }
  }

  lemma StartsAnew(ins: seq<Input>, input: Input, fd: int)
    requires !input.Sent?
    ensures
      Told(ins + [input], fd) ==
      Told(ins, fd) + if input.fd == fd then [if input.Opened? then Connected(fd) else Gone(fd)] else []
    ensures ChunksSince(ins + [input], fd) == if input.fd == fd then [] else ChunksSince(ins, fd)
  {
    if input.fd != fd {
      OthersUnchanged(ins, input, fd);
    } else {
      assert (ins + [input])[..|ins|] == ins;
      assert Kept([]) == "" && Lines("") == [];
    }
  }

  lemma ServedSent(ns: seq<Notice>, buffers: map<int, string>, ins: seq<Input>, f: int, chunk: string)
    requires Served(ns, buffers, ins) && f in buffers
    ensures
      var text := buffers[f] + CString(chunk);
      Served(ns + WroteAll(f, Lines(text)), buffers[f := Rest(text)], ins + [Sent(f, chunk)])
  {
    var text := buffers[f] + CString(chunk);
    var ins', ns', buffers' := ins + [Sent(f, chunk)], ns + WroteAll(f, Lines(text)), buffers[f := Rest(text)];
    assert ins'[..|ins|] == ins;
    SentMore(ins, f, chunk);
    forall fd ensures Only(ns', fd) == Told(ins', fd) {
      OnlyJoin(ns, WroteAll(f, Lines(text)), fd);
      OnlyWrote(f, Lines(text), fd);
      if fd != f {
        OthersUnchanged(ins, Sent(f, chunk), fd);
      }
    }
    forall fd | fd in buffers' ensures buffers'[fd] == Rest(Kept(ChunksSince(ins', fd))) {
      if fd != f {
        OthersUnchanged(ins, Sent(f, chunk), fd);
      }
    }
  }

  /** One chunk more of a descriptor. */
  lemma SentMore(ins: seq<Input>, f: int, chunk: string)
    ensures
      var text := Rest(Kept(ChunksSince(ins, f))) + CString(chunk);
      && Told(ins + [Sent(f, chunk)], f) == Told(ins, f) + WroteAll(f, Lines(text))
      && Rest(Kept(ChunksSince(ins + [Sent(f, chunk)], f))) == Rest(text)
  {
    var ins', chunks := ins + [Sent(f, chunk)], ChunksSince(ins, f);
    assert ins'[..|ins|] == ins;
    KeptMore(chunks, chunk);
    assert "" + Kept(chunks) == Kept(chunks) && "" + (Kept(chunks) + CString(chunk)) == Kept(chunks) + CString(chunk);
    WroteMore(ToldBefore(ins, f), f, "", Kept(chunks), CString(chunk));
  }

  lemma KeptMore(chunks: seq<string>, chunk: string)
    ensures Kept(chunks + [chunk]) == Kept(chunks) + CString(chunk)
  {
    ConcatJoin(chunks, [chunk]);
    assert [chunk][1..] == [] && Kept([chunk]) == CString(chunk) + Kept([]);
  }

  /** Whatever the order in which clients come, send and go: the notices of each are the
      lines of what is kept of its own bytes, whoever else sends in between. */
  method ServeAll(password: string, ins: seq<Input>) returns (reception: Reception)
    requires Possible(ins)
    ensures fresh(reception) && reception.Valid() && reception.server.password == password
    ensures Served(reception.noticed, reception.buffers, ins)
  {
    reception := new Reception(password);
    NothingServed();
    var i := 0;
    assert ins[..0] == [];
    while i < |ins|
      invariant 0 <= i <= |ins| && reception.Valid() && fresh(reception) && fresh(reception.repr)
      invariant reception.server.password == password
      invariant Served(reception.noticed, reception.buffers, ins[..i])
    {
      PossibleSoFar(ins, i);
      assert ins[..i + 1] == ins[..i] + [ins[i]];
      ServeOne(reception, ins[..i], ins[i]);
      i := i + 1;
    }
    assert ins[..i] == ins;
  }

  method ServeOne(reception: Reception, ghost before: seq<Input>, input: Input)
    requires reception.Valid() && Served(reception.noticed, reception.buffers, before)
    requires input.Opened? <==> input.fd !in OpenAfter(before)
    modifies reception, reception.repr
    ensures reception.Valid() && fresh(reception.repr - old(reception.repr))
    ensures Served(reception.noticed, reception.buffers, before + [input])
  {
    match input
    case Opened(fd) =>
      ServedOpened(reception.noticed, reception.buffers, before, fd);
      reception.AcceptConnection(fd);
    case Sent(fd, chunk) =>
      ServedSent(reception.noticed, reception.buffers, before, fd, chunk);
      reception.HandleClient(fd, chunk);
    case Closed(fd) =>
      ServedClosed(reception.noticed, reception.buffers, before, fd);
      reception.RemoveClient(fd);
  }

  lemma NothingServed()
    ensures Served([], map[], [])
  {
    assert Kept([]) == "" && Lines("") == [];
  }

  lemma {:induction false} PossibleSoFar(ins: seq<Input>, i: nat)
    requires Possible(ins) && i < |ins|
    ensures ins[i].Opened? <==> ins[i].fd !in OpenAfter(ins[..i])
    decreases |ins|
  {
    var n := |ins| - 1;
    if i == n {
    } else {
      PossibleSoFar(ins[..n], i);
      assert ins[..n][..i] == ins[..i] && ins[..n][i] == ins[i];
    }
  }
}
