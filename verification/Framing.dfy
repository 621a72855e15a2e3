/** Taking CRLF-terminated lines off a byte stream that arrives in chunks: the
    receive loop of mserver (mserver/Server.cpp), and what is left of the chunks in
    the merged server, which appends each as a C string (merged_irc/srcs/Server.cpp). */
module Framing {
  import opened Common

  predicate CrlfAt(s: string, i: int) {
    0 <= i && i + 1 < |s| && s[i] == '\r' && s[i + 1] == '\n'
  }

  predicate HasCrlf(s: string) {
    exists i :: 0 <= i < |s| && CrlfAt(s, i)
  }

  /** The position of the first CRLF, if there is one. */
  function FindCrlf(s: string): (pos: Option<nat>)
    ensures pos.Some? ==> CrlfAt(s, pos.value) && forall i :: CrlfAt(s, i) ==> pos.value <= i
    ensures pos.None? <==> !HasCrlf(s)
  {
    if |s| < 2 then None
    else if s[0] == '\r' && s[1] == '\n' then
      assert CrlfAt(s, 0);
      Some(0)
    else
      var pos := FindCrlf(s[1..]);
      assert forall i :: 1 <= i ==> (CrlfAt(s, i) <==> CrlfAt(s[1..], i - 1));
      if pos.None? then
        None
      else
        assert CrlfAt(s, pos.value + 1);
        Some(pos.value + 1)
  }

  /** The complete lines of a text, split once from left to right. */
  ghost function Lines(s: string): seq<string> {
    match FindCrlf(s)
    case None => []
    case Some(p) => [s[..p]] + Lines(s[p + 2..])
  }

  /** What is left behind the last line. */
  ghost function Rest(s: string): string {
    match FindCrlf(s)
    case None => s
    case Some(p) => Rest(s[p + 2..])
  }

  /** The lines, each with its terminator, as one text. */
  ghost function Terminated(lines: seq<string>): string {
    if lines == [] then "" else lines[0] + "\r\n" + Terminated(lines[1..])
  }

  ghost function Concat(chunks: seq<string>): string {
    if chunks == [] then "" else chunks[0] + Concat(chunks[1..])
  }

  /** A line without a CRLF is the first one taken off. */
  lemma FirstLine(l: string, tail: string)
    requires !HasCrlf(l)
    ensures FindCrlf(l + "\r\n" + tail) == Some(|l|)
    ensures Lines(l + "\r\n" + tail) == [l] + Lines(tail) && Rest(l + "\r\n" + tail) == Rest(tail)
  {
    var s := l + "\r\n" + tail;
    assert s[|l|] == '\r' && s[|l| + 1] == '\n' && s[..|l|] == l && s[|l| + 2..] == tail;
    assert CrlfAt(s, |l|);
    forall i | CrlfAt(s, i) ensures |l| <= i {
      if i + 1 < |l| {
        assert CrlfAt(l, i);
      }
    }
  }

  /** The text in front of the first CRLF, and what the text is made of. */
  lemma TakeFirstLine(s: string, p: nat)
    requires FindCrlf(s) == Some(p)
    ensures !HasCrlf(s[..p]) && s == s[..p] + "\r\n" + s[p + 2..]
  {
    assert forall i :: CrlfAt(s[..p], i) ==> CrlfAt(s, i);
  }

  lemma TerminatedCons(l: string, lines: seq<string>)
    ensures Terminated([l] + lines) == l + "\r\n" + Terminated(lines)
  {
    assert ([l] + lines)[1..] == lines;
  }

  /** Splitting loses nothing, and neither a line nor the remainder holds a CRLF. */
  lemma {:induction false} SplitIsFaithful(s: string)
    ensures Terminated(Lines(s)) + Rest(s) == s
    ensures !HasCrlf(Rest(s)) && forall l :: l in Lines(s) ==> !HasCrlf(l)
  {
    match FindCrlf(s) {
      case None =>
      case Some(p) =>
        var l, tail := s[..p], s[p + 2..];
        SplitIsFaithful(tail);
        TakeFirstLine(s, p);
        TerminatedCons(l, Lines(tail));
        Assoc(l + "\r\n", Terminated(Lines(tail)), Rest(tail));
    }
  }

  /** Any lines without a CRLF come back from their terminated form. */
  lemma {:induction false} SplitUndoesTerminating(lines: seq<string>, rest: string)
    requires !HasCrlf(rest) && forall l :: l in lines ==> !HasCrlf(l)
    ensures Lines(Terminated(lines) + rest) == lines && Rest(Terminated(lines) + rest) == rest
  {
    if lines == [] {
      assert Terminated(lines) + rest == rest;
    } else {
      SplitUndoesTerminating(lines[1..], rest);
      FirstLine(lines[0], Terminated(lines[1..]) + rest);
      Assoc(lines[0] + "\r\n", Terminated(lines[1..]), rest);
      assert lines == [lines[0]] + lines[1..];
    }
  }

  /** Splitting a prefix first and the rest of the stream with its remainder
      later gives the same lines, wherever the cut is. */
  lemma {:induction false} CutAnywhere(a: string, b: string)
    ensures Lines(a + b) == Lines(a) + Lines(Rest(a) + b)
    ensures Rest(a + b) == Rest(Rest(a) + b)
  {
    match FindCrlf(a) {
      case None =>
      case Some(p) =>
        var l, tail := a[..p], a[p + 2..];
        TakeFirstLine(a, p);
        CutAnywhere(tail, b);
        FirstLine(l, tail);
        FirstLine(l, tail + b);
        Assoc(l + "\r\n", tail, b);
        Assoc([l], Lines(tail), Lines(Rest(tail) + b));
    }
  }

  /** One read more: what was handed on and what remains, after the text `fed` and then `more`. */
  lemma FeedMore(start: string, fed: string, more: string, handed: seq<string>)
    ensures handed + Lines(start + (fed + more)) == handed + Lines(start + fed) + Lines(Rest(start + fed) + more)
    ensures Rest(start + (fed + more)) == Rest(Rest(start + fed) + more)
  {
    Assoc(start, fed, more);
    CutAnywhere(start + fed, more);
    Assoc(handed, Lines(start + fed), Lines(Rest(start + fed) + more));
  }

  // ----- the merged server: chunks as C strings -----

  const NUL := '\0'

  /** What a C string keeps of a chunk: the bytes before the first NUL. */
  function CString(chunk: string): string {
    if chunk == "" || chunk[0] == NUL then "" else [chunk[0]] + CString(chunk[1..])
  }

  lemma CStringByExample()
    ensures CString("ab\0c\0") == "ab" && CString("ab\r\n") == "ab\r\n" && CString("\0a") == "" && CString("") == ""
  {
  }

  /** The text that reaches the buffer of the merged server. */
  ghost function Kept(chunks: seq<string>): string {
    if chunks == [] then "" else CString(chunks[0]) + Kept(chunks[1..])
  }

  /** The ways a stream can arrive: chunks of at least one byte, as large as the read buffer at most. */
  ghost predicate Arrives(chunks: seq<string>, stream: string) {
    Concat(chunks) == stream && forall c :: c in chunks ==> 1 <= |c| <= 1023
  }

  ghost predicate NulsOnlyAtEnd(s: string) {
    forall i, j :: 0 <= i < j < |s| && s[i] == NUL ==> s[j] == NUL
  }

  /** Bytes that only NULs follow: all of the stream up to its first NUL is kept. */
  lemma {:induction false} KeptUpToNul(chunks: seq<string>)
    requires NulsOnlyAtEnd(Concat(chunks))
    ensures Kept(chunks) == CString(Concat(chunks))
  {
    if chunks == [] {
    } else {
      var c, s := chunks[0], Concat(chunks[1..]);
      assert Concat(chunks) == c + s;
      assert NulsOnlyAtEnd(s) by {
        forall i, j | 0 <= i < j < |s| && s[i] == NUL ensures s[j] == NUL {
          assert (c + s)[|c| + i] == s[i] && (c + s)[|c| + j] == s[j];
        }
      }
      KeptUpToNul(chunks[1..]);
      CStringJoin(c, s);
    }
  }

  lemma {:induction false} CStringJoin(c: string, s: string)
    requires NulsOnlyAtEnd(c + s)
    ensures CString(c + s) == CString(c) + CString(s)
  {
    if c == "" {
      assert c + s == s;
    } else if c[0] == NUL {
      assert (c + s)[0] == NUL;
      if s != "" {
        assert (c + s)[|c|] == s[0];
      }
    } else {
      assert (c + s)[1..] == c[1..] + s;
      assert NulsOnlyAtEnd(c[1..] + s) by {
        forall i, j | 0 <= i < j < |c[1..] + s| && (c[1..] + s)[i] == NUL ensures (c[1..] + s)[j] == NUL {
          assert (c[1..] + s)[i] == (c + s)[i + 1] && (c[1..] + s)[j] == (c + s)[j + 1];
        }
      }
      CStringJoin(c[1..], s);
    }
  }

  /** The stream byte by byte: the finest way it can arrive. */
  ghost function Bytes(s: string): (chunks: seq<string>)
    ensures forall c :: c in chunks ==> |c| == 1
  {
    if s == "" then [] else [[s[0]]] + Bytes(s[1..])
  }

  lemma {:induction false} BytesArrive(s: string)
    ensures Arrives(Bytes(s), s)
  {
    if s == "" {
    } else {
      BytesArrive(s[1..]);
      assert Bytes(s)[1..] == Bytes(s[1..]) && Bytes(s)[0] == [s[0]];
      assert s == [s[0]] + s[1..];
    }
  }

  lemma {:induction false} ConcatJoin(a: seq<string>, b: seq<string>)
    ensures Concat(a + b) == Concat(a) + Concat(b)
    ensures Kept(a + b) == Kept(a) + Kept(b)
  {
    if a == [] {
      assert a + b == b;
    } else {
      ConcatJoin(a[1..], b);
      assert (a + b)[0] == a[0] && (a + b)[1..] == a[1..] + b;
      Assoc(a[0], Concat(a[1..]), Concat(b));
      Assoc(CString(a[0]), Kept(a[1..]), Kept(b));
    }
  }

  lemma NextChunk(chunks: seq<string>, i: nat)
    requires i < |chunks|
    ensures Concat(chunks[..i + 1]) == Concat(chunks[..i]) + chunks[i]
    ensures Kept(chunks[..i + 1]) == Kept(chunks[..i]) + CString(chunks[i])
  {
    assert chunks[..i + 1] == chunks[..i] + [chunks[i]];
    ConcatJoin(chunks[..i], [chunks[i]]);
    assert Concat([chunks[i]]) == chunks[i] && Kept([chunks[i]]) == CString(chunks[i]);
  }

  /** A byte that follows a NUL is kept when a chunk begins with it, and lost when the NUL is in front of it. */
  lemma ByteAfterNulIsAtRisk(s: string, i: nat) returns (apart: seq<string>, together: seq<string>)
    requires i + 1 < |s| && s[i] == NUL && s[i + 1] != NUL
    ensures Arrives(apart, s) && Arrives(together, s)
    ensures |Kept(apart)| == |Kept(together)| + 1
  {
    var before, after := Bytes(s[..i]), Bytes(s[i + 2..]);
    BytesArrive(s[..i]);
    BytesArrive(s[i + 2..]);
    var one, two := [[s[i]], [s[i + 1]]], [[s[i], s[i + 1]]];
    KeptOfPair(s[i + 1]);
    apart, together := Around(before, one, after), Around(before, two, after);
    CutOutPair(s, i);
  }

  lemma CutOutPair(s: string, i: nat)
    requires i + 1 < |s|
    ensures s == s[..i] + [s[i], s[i + 1]] + s[i + 2..]
  {
  }

  lemma KeptOfPair(c: char)
    requires c != NUL
    ensures Concat([[NUL], [c]]) == [NUL, c] && Concat([[NUL, c]]) == [NUL, c]
    ensures Kept([[NUL], [c]]) == [c] && Kept([[NUL, c]]) == ""
  {
    assert [[NUL], [c]][1..] == [[c]] && [[c]][1..] == [] && [[NUL, c]][1..] == [];
    assert CString([c]) == [c] + CString("");
    assert Concat([[c]]) == [c] + Concat([]);
    assert Kept([[c]]) == [c] + Kept([]);
  }

  ghost function Around(before: seq<string>, middle: seq<string>, after: seq<string>): (all: seq<string>)
    ensures Concat(all) == Concat(before) + Concat(middle) + Concat(after)
    ensures Kept(all) == Kept(before) + Kept(middle) + Kept(after)
  {
    ConcatJoin(before + middle, after);
    ConcatJoin(before, middle);
    before + middle + after
  }

  /** In the merged server the lines and the remainder do not depend on how a stream
      arrives exactly when no other byte follows a NUL in it. */
  lemma MergedFramingIgnoresCutsIff(s: string)
    ensures
      (forall a, b :: Arrives(a, s) && Arrives(b, s) ==>
         Lines(Kept(a)) == Lines(Kept(b)) && Rest(Kept(a)) == Rest(Kept(b)))
      <==> NulsOnlyAtEnd(s)
  {
    if NulsOnlyAtEnd(s) {
      forall a, b | Arrives(a, s) && Arrives(b, s) ensures Kept(a) == Kept(b) {
        KeptUpToNul(a);
        KeptUpToNul(b);
      }
    } else {
      var i, j :| 0 <= i < j < |s| && s[i] == NUL && s[j] != NUL;
      while s[i + 1] == NUL
        invariant 0 <= i < j && s[i] == NUL
        decreases j - i
      {
        i := i + 1;
      }
      var apart, together := ByteAfterNulIsAtRisk(s, i);
      SplitIsFaithful(Kept(apart));
      SplitIsFaithful(Kept(together));
    }
  }

  /** A connected client as the receive loop of mserver sees it, with the lines handed on so far. */
  class Connection {
    var buffer: string
    var handed: seq<string>

    /** Between two reads no complete line is left in the buffer. */
    ghost predicate Valid()
      reads this
    {
      !HasCrlf(buffer)
    }

    constructor ()
      ensures Valid() && buffer == "" && handed == []
    {
      buffer, handed := "", [];
    }

    /** The loop: take lines off the front while there is one. */
    method TakeLines()
      modifies this
      ensures Valid()
      ensures handed == old(handed) + Lines(old(buffer)) && buffer == Rest(old(buffer))
    {
      var pos := FindCrlf(buffer);
      while pos.Some?
        invariant pos == FindCrlf(buffer)
        invariant handed + Lines(buffer) == old(handed) + Lines(old(buffer))
        invariant Rest(buffer) == Rest(old(buffer))
        decreases |buffer|
      {
        Assoc(handed, [buffer[..pos.value]], Lines(buffer[pos.value + 2..]));
        var line := buffer[..pos.value];
        buffer := buffer[pos.value + 2..];
        handed := handed + [line];
        pos := FindCrlf(buffer);
      }
    }

    /** The received bytes are appended as they are. */
    method ReceiveClientData(chunk: string)
      modifies this
      ensures Valid()
      ensures handed == old(handed) + Lines(old(buffer) + chunk) && buffer == Rest(old(buffer) + chunk)
    {
      buffer := buffer + chunk;
      TakeLines();
    }

    /** However the stream is cut, mserver hands on the lines of the whole stream. */
    method ReceiveStream(chunks: seq<string>)
      requires Valid()
      modifies this
      ensures Valid()
      ensures handed == old(handed) + Lines(old(buffer) + Concat(chunks))
      ensures buffer == Rest(old(buffer) + Concat(chunks))
    {
      assert buffer + "" == buffer;
      var i := 0;
      while i < |chunks|
        invariant 0 <= i <= |chunks| && Valid()
        invariant handed == old(handed) + Lines(old(buffer) + Concat(chunks[..i]))
        invariant buffer == Rest(old(buffer) + Concat(chunks[..i]))
      {
        NextChunk(chunks, i);
        FeedMore(old(buffer), Concat(chunks[..i]), chunks[i], old(handed));
        ReceiveClientData(chunks[i]);
        i := i + 1;
      }
      assert chunks[..i] == chunks;
    }
  }
}
