/** On which lines the parser of the merged server agrees with the parser of mserver,
    which reads the documented format. */
module MergedAgreement {
  import opened Common
  import opened IrcParser
  import opened MessageFormat
  import opened MergedParser

  /** The lines both parsers read alike: no blank or colon in front, no tab before the
      first colon, and that colon, if any, either the last character inside a word behind
      a space or at the start of a word with something behind it. */
  predicate ReadAlike(line: string) {
    var c := IndexOf(line, ':');
    && line != "" && !Blank(line[0]) && line[0] != ':'
    && c <= IndexOf(line, '\t')
    && ( || c == |line|
         || (c == |line| - 1 && line[c - 1] != ' ' && !Lacks(line, ' '))
         || (c < |line| - 1 && line[c - 1] == ' '))
  }

  // ----- where characters are -----

  lemma Resplit(s: string, p: nat)
    requires p < |s|
    ensures s == s[..p] + ([s[p]] + s[p + 1..])
  {
  }

  lemma Regroup(a: string, b: string, c: string)
    ensures (a + (" " + b)) + c == a + (" " + (b + c))
  {
  }

  lemma {:induction false} IndexBehind(w: string, t: string, c: char)
    requires Lacks(w, c)
    ensures IndexOf(w + t, c) == |w| + IndexOf(t, c)
  {
    if w == "" {
      assert w + t == t;
    } else {
      assert (w + t)[0] == w[0] && (w + t)[1..] == w[1..] + t;
      IndexBehind(w[1..], t, c);
    }
  }

  lemma IndexBehindSpace(w: string, t: string, c: char)
    requires Lacks(w, c) && c != ' '
    ensures IndexOf(w + (" " + t), c) == |w| + 1 + IndexOf(t, c)
  {
    IndexBehind(w, " " + t, c);
    assert (" " + t)[1..] == t;
  }

  lemma PrefixLacks(w: string, t: string, c: char)
    requires |w| <= IndexOf(w + t, c)
    ensures Lacks(w, c)
  {
    forall i | 0 <= i < |w| ensures w[i] != c {
      assert (w + t)[i] == w[i];
    }
  }

  // ----- one word at a time -----

  /** A word that does not look like a prefix or a trailing parameter. */
  predicate Plain(w: string) {
    w != "" && w[0] != ':' && BlankFree(w)
  }

  lemma SpaceStep(t: string)
    ensures ParseParams(" " + t) == ParseParams(t) && Words(" " + t) == Words(t)
  {
    var s := " " + t;
    assert s[1..] == t;
    IndexIs(s, ' ', 0);
    assert Words(s) == [] + Words(t);
  }

  lemma WordAlone(w: string)
    requires Plain(w)
    ensures Token(w) == w && ParseParams(w) == [w] && Words(w) == [w]
  {
    assert w[..|w|] == w;
    TokenIs(w, |w|);
    NotThere(w, ' ');
    assert w[|w|..] == "" && ParseParams("") == [];
  }

  /** A word in front of a space. */
  lemma FirstWord(w: string, t: string)
    requires BlankFree(w)
    ensures
      var s := w + (" " + t);
      && IndexOf(s, ' ') == |w| && s[..|w|] == w && s[|w| + 1..] == t
      && Token(s) == w && s[|w|..] == " " + t
  {
    var s := w + (" " + t);
    assert s[..|w|] == w && s[|w|] == ' ';
    IndexIs(s, ' ', |w|);
    TokenIs(s, |w|);
  }

  lemma WordStep(w: string, t: string)
    requires Plain(w)
    ensures ParseParams(w + (" " + t)) == [w] + ParseParams(t)
    ensures Words(w + (" " + t)) == [w] + Words(t)
  {
    var s := w + (" " + t);
    FirstWord(w, t);
    SpaceStep(t);
    assert s[0] == w[0] && Skip(s) == s;
  }

  /** A text without tabs begins with a space, is one word, or has a word in front of a space. */
  lemma Begins(s: string)
    requires s != "" && Lacks(s, '\t') && s[0] != ' '
    ensures
      var p := IndexOf(s, ' ');
      && p > 0 && BlankFree(s[..p])
      && (p == |s| ==> s[..p] == s)
      && (p < |s| ==> s == s[..p] + (" " + s[p + 1..]))
  {
    if IndexOf(s, ' ') < |s| {
      Resplit(s, IndexOf(s, ' '));
    }
  }

  // ----- parameters -----

  /** No tab, and no colon at the start of a word. */
  predicate Clean(s: string) {
    Lacks(s, '\t') && forall i :: 0 <= i < |s| && s[i] == ':' ==> i > 0 && s[i - 1] != ' '
  }

  lemma CleanTail(s: string, k: nat)
    requires Clean(s) && k < |s| && s[k] == ' '
    ensures Clean(s[k + 1..])
  {
    var t := s[k + 1..];
    forall i | 0 <= i < |t| && t[i] == ':' ensures i > 0 && t[i - 1] != ' ' {
      assert s[k + 1 + i] == ':';
    }
  }

  lemma {:induction false} CleanReadsAlike(s: string)
    requires Clean(s)
    ensures ParseParams(s) == Words(s)
    decreases |s|
  {
    if s == "" {
    } else if s[0] == ' ' {
      CleanTail(s, 0);
      CleanReadsAlike(s[1..]);
      SpaceStep(s[1..]);
      assert s == " " + s[1..];
    } else {
      Begins(s);
      var p := IndexOf(s, ' ');
      if p == |s| {
        WordAlone(s);
      } else {
        CleanTail(s, p);
        CleanReadsAlike(s[p + 1..]);
        WordStep(s[..p], s[p + 1..]);
      }
    }
  }

  predicate AtWordStart(a: string) {
    a == "" || a[|a| - 1] == ' '
  }

  /** A colon at the start of a word: both read a trailing parameter. */
  lemma {:induction false} TrailingReadsAlike(a: string, x: string)
    requires Clean(a) && AtWordStart(a)
    ensures ParseParams(a + (":" + x)) == Words(a) + [x]
    decreases |a|
  {
    if a == "" {
      assert a + (":" + x) == ":" + x && (":" + x)[1..] == x;
    } else if a[0] == ' ' {
      CleanTail(a, 0);
      TrailingReadsAlike(a[1..], x);
      SpaceFirst(a, ":" + x);
      SpaceStep(a[1..]);
      SpaceStep(a[1..] + (":" + x));
    } else {
      Begins(a);
      var p := IndexOf(a, ' ');
      var w, t := a[..p], a[p + 1..];
      CleanTail(a, p);
      TrailingReadsAlike(t, x);
      TrailingWord(w, t, x);
    }
  }

  lemma SpaceFirst(a: string, b: string)
    requires a != "" && a[0] == ' '
    ensures a == " " + a[1..] && a + b == " " + (a[1..] + b)
  {
  }

  lemma TrailingWord(w: string, t: string, x: string)
    requires Plain(w) && ParseParams(t + (":" + x)) == Words(t) + [x]
    ensures ParseParams((w + (" " + t)) + (":" + x)) == Words(w + (" " + t)) + [x]
  {
    Regroup(w, t, ":" + x);
    WordStep(w, t);
    WordStep(w, t + (":" + x));
    Assoc([w], Words(t), [x]);
  }

  /** A colon inside a word: one parser keeps the word, the other cuts it. */
  lemma {:induction false} CutWordShows(a: string, x: string)
    requires Lacks(a, '\t') && Lacks(a, ':') && !AtWordStart(a)
    ensures ParseParams(a + (":" + x)) != Words(a) + [x]
    decreases |a|
  {
    if a[0] == ' ' {
      SpaceFirst(a, ":" + x);
      CutWordShows(a[1..], x);
      SpaceStep(a[1..]);
      SpaceStep(a[1..] + (":" + x));
    } else {
      Begins(a);
      var p := IndexOf(a, ' ');
      if p == |a| {
        WordAlone(a);
        LongerWord(a, x);
      } else {
        var w, t := a[..p], a[p + 1..];
        assert w[0] == a[0];
        CutWordShows(t, x);
        Regroup(w, t, ":" + x);
        WordStep(w, t);
        WordStep(w, t + (":" + x));
        SameBehind(w, ParseParams(t + (":" + x)), Words(t) + [x]);
        Assoc([w], Words(t), [x]);
      }
    }
  }

  lemma SameBehind(w: string, a: seq<string>, b: seq<string>)
    ensures [w] + a == [w] + b <==> a == b
  {
    assert ([w] + a)[1..] == a && ([w] + b)[1..] == b;
  }

  lemma LongerWord(w: string, x: string)
    requires Plain(w)
    ensures |Token(w + (":" + x))| > |w|
    ensures ParseParams(w + (":" + x))[0] == Token(w + (":" + x))
  {
    var s := w + (":" + x);
    TokenReaches(s, |w|);
    assert s[0] == w[0] && Skip(s) == s;
  }

  lemma {:induction false} TokenReaches(s: string, c: nat)
    requires c < |s| && forall i :: 0 <= i <= c ==> !Blank(s[i])
    ensures |Token(s)| > c
  {
    if c == 0 {
    } else {
      TokenReaches(s[1..], c - 1);
    }
  }

  // ----- whole lines -----

  lemma ParseWords(w: string, t: string)
    requires Plain(w)
    ensures Parse(w) == Some(Message("", w, []))
    ensures Parse(w + (" " + t)) == Some(Message("", w, ParseParams(t)))
  {
    WordAlone(w);
    assert Skip(w) == w && w[|w|..] == "" && ParseParams("") == [];
    var s := w + (" " + t);
    assert s[0] == w[0] && Skip(s) == s;
    FirstWord(w, t);
    SpaceStep(t);
  }

  /** No colon, or nothing behind it. */
  lemma MergedWords(w: string, t: string)
    requires BlankFree(w) && TrailingOf(w + (" " + t)) == ""
    ensures MergedParse(w + (" " + t)) == Message("", w, Words(t))
  {
    var s := w + (" " + t);
    FirstWord(w, t);
    assert s[|w|] == ' ';
    assert Words(t) + [] == Words(t);
  }

  lemma MergedTrailing(w: string, a: string, x: string)
    requires BlankFree(w) && Lacks(w, ':') && Lacks(a, ':') && x != ""
    ensures MergedParse(w + (" " + (a + (":" + x)))) == Message("", w, Words(a) + [x])
  {
    var head := w + (" " + a);
    var s := head + (":" + x);
    Regroup(w, a, ":" + x);
    LacksJoin(w, " " + a, ':');
    ColonAt(head, x);
    FirstWord(w, a);
    MergedSplit(s, head, x, w, a);
  }

  lemma MergedSplit(s: string, head: string, x: string, w: string, a: string)
    requires HeadOf(s) == head && TrailingOf(s) == x != ""
    requires IndexOf(head, ' ') == |w| < |head| && head[..|w|] == w && head[|w| + 1..] == a
    ensures MergedParse(s) == Message("", w, Words(a) + [x])
  {
    assert s[IndexOf(s, ':')] == ':';
  }

  lemma ColonAt(head: string, x: string)
    requires Lacks(head, ':')
    ensures
      var s := head + (":" + x);
      IndexOf(s, ':') == |head| && TrailingOf(s) == x && HeadOf(s) == if x != "" then head else s
  {
    var s := head + (":" + x);
    assert s[..|head|] == head && s[|head|] == ':' && s[|head| + 1..] == x;
    IndexIs(s, ':', |head|);
  }

  /** Where the first colon may be behind the first word. */
  predicate ColonFits(t: string) {
    var c := IndexOf(t, ':');
    c == |t| || (c == |t| - 1 && !AtWordStart(t[..c])) || (c < |t| - 1 && AtWordStart(t[..c]))
  }

  /** Behind a word and a space: both parsers agree exactly if the colon is where it may be. */
  lemma BehindWord(w: string, t: string)
    requires Plain(w) && Lacks(w, ':') && IndexOf(t, ':') <= IndexOf(t, '\t')
    ensures Parse(w + (" " + t)) == Some(MergedParse(w + (" " + t))) <==> ColonFits(t)
  {
    var c := IndexOf(t, ':');
    if c == |t| {
      ParseWords(w, t);
      NoTrailing(w, t);
      CleanReadsAlike(t);
    } else {
      Resplit(t, c);
      BehindWordColon(w, t[..c], t[c + 1..]);
    }
  }

  lemma BehindWordColon(w: string, a: string, x: string)
    requires Plain(w) && Lacks(w, ':') && Lacks(a, ':') && Lacks(a, '\t')
    ensures
      var line := w + (" " + (a + (":" + x)));
      Parse(line) == Some(MergedParse(line)) <==> if x != "" then AtWordStart(a) else !AtWordStart(a)
  {
    ParseWords(w, a + (":" + x));
    if x != "" {
      MergedTrailing(w, a, x);
      ColonBetween(a, x);
    } else {
      ColonAt(a, x);
      NoTrailing(w, a + (":" + x));
      ColonLast(a);
    }
  }

  lemma NoTrailing(w: string, t: string)
    requires BlankFree(w) && Lacks(w, ':') && IndexOf(t, ':') >= |t| - 1
    ensures MergedParse(w + (" " + t)) == Message("", w, Words(t))
  {
    NothingBehindColon(w, t);
    MergedWords(w, t);
  }

  lemma NothingBehindColon(w: string, t: string)
    requires Lacks(w, ':') && IndexOf(t, ':') >= |t| - 1
    ensures TrailingOf(w + (" " + t)) == ""
  {
    IndexBehindSpace(w, t, ':');
  }

  lemma ColonBetween(a: string, x: string)
    requires Lacks(a, '\t') && Lacks(a, ':')
    ensures ParseParams(a + (":" + x)) == Words(a) + [x] <==> AtWordStart(a)
  {
    assert Clean(a);
    if AtWordStart(a) {
      TrailingReadsAlike(a, x);
    } else {
      CutWordShows(a, x);
    }
  }

  lemma ColonLast(a: string)
    requires Lacks(a, '\t') && Lacks(a, ':')
    ensures ParseParams(a + (":" + "")) == Words(a + (":" + "")) <==> !AtWordStart(a)
  {
    var s := a + (":" + "");
    if AtWordStart(a) {
      TrailingReadsAlike(a, "");
      EmptyLast(a, s);
    } else {
      assert Clean(s);
      CleanReadsAlike(s);
    }
  }

  lemma EmptyLast(a: string, s: string)
    ensures Words(s) != Words(a) + [""]
  {
    WordsAreNotEmpty(s);
    assert "" in Words(a) + [""];
  }

  /** A colon inside the command, with no tab or space before it. */
  lemma ColonInCommand(line: string)
    requires line != "" && line[0] != ':' && IndexOf(line, ':') < IndexOf(line, ' ')
    requires IndexOf(line, ':') <= IndexOf(line, '\t')
    ensures Parse(line) != Some(MergedParse(line)) && !ReadAlike(line)
  {
    var c := IndexOf(line, ':');
    NoBlankBefore(line, c);
    if c < |line| - 1 {
      TokenReaches(line, c);
      SpaceFree(line[..c]);
      CutCommand(line, c);
    } else {
      ColonEndsCommand(line);
    }
  }

  /** Neither a space nor a tab before `n`. */
  lemma NoBlankBefore(s: string, n: nat)
    requires n <= IndexOf(s, ' ') && n <= IndexOf(s, '\t')
    ensures BlankFree(s[..n]) && forall i :: 0 <= i < n ==> !Blank(s[i])
  {
  }

  lemma SpaceFree(w: string)
    requires BlankFree(w)
    ensures IndexOf(w, ' ') == |w|
  {
    NotThere(w, ' ');
  }

  lemma CutCommand(line: string, c: nat)
    requires c == IndexOf(line, ':') < |line| - 1 && !Blank(line[0]) && line[0] != ':'
    requires IndexOf(line[..c], ' ') == c && |Token(line)| > c
    ensures Parse(line) != Some(MergedParse(line))
  {
    assert Skip(line) == line;
    assert Parse(line).Some? && Parse(line).value.command == Token(line);
    assert HeadOf(line) == line[..c];
    assert |MergedParse(line).command| == c;
  }

  lemma ColonEndsCommand(line: string)
    requires Plain(line) && IndexOf(line, ':') == |line| - 1
    ensures Parse(line) != Some(MergedParse(line))
  {
    ParseWords(line, "");
    NotThere(line, ' ');
    WordAlone(line);
    assert HeadOf(line) == line;
    assert MergedParse(line).params == [line] + [];
  }

  // ----- lines with a bad beginning, and tabs -----

  lemma NoCommand(line: string)
    requires line == "" || line[0] == ' ' || line[0] == ':'
    ensures Parse(line) != Some(MergedParse(line))
  {
    if line == "" {
    } else if line[0] == ' ' {
      assert line[..0] == "";
      var head := HeadOf(line);
      assert head != "" && head[0] == ' ';
      IndexIs(head, ' ', 0);
    } else if line == ":" {
      assert ":"[1..] == "" && Token("") == "";
    } else {
      IndexIs(line, ':', 0);
      assert HeadOf(line) == "";
    }
  }

  /** A tab that the merged parser takes for part of a word stays in one. */
  lemma {:induction false} TabShows(s: string)
    requires !Lacks(s, '\t')
    ensures exists k :: 0 <= k < |Words(s)| && !Lacks(Words(s)[k], '\t')
    decreases |s|
  {
    var p := IndexOf(s, ' ');
    if p == |s| {
      assert Words(s)[0] == s;
    } else if !Lacks(s[..p], '\t') {
      assert Words(s)[0] == s[..p];
    } else {
      var t := s[p + 1..];
      assert s == s[..p] + [' '] + t;
      TabShows(t);
      var k :| 0 <= k < |Words(t)| && !Lacks(Words(t)[k], '\t');
      assert Words(s)[if p > 0 then k + 1 else k] == Words(t)[k];
    }
  }

  lemma TabInHead(line: string)
    requires !Lacks(HeadOf(line), '\t')
    ensures
      var m := MergedParse(line);
      || !Lacks(m.command, '\t')
      || exists k :: 0 <= k < |m.params| - (if TrailingOf(line) != "" then 1 else 0) && !Lacks(m.params[k], '\t')
  {
    var head := HeadOf(line);
    if !Lacks(line, ' ') || !Lacks(line, ':') {
      var p := IndexOf(head, ' ');
      if p < |head| {
        assert head == head[..p] + [' '] + head[p + 1..];
      } else {
        assert head[..p] == head;
      }
      if Lacks(head[..p], '\t') {
        TabShows(BehindCommand(head));
        var k :| 0 <= k < |Words(BehindCommand(head))| && !Lacks(Words(BehindCommand(head))[k], '\t');
        assert MergedParse(line).params[k] == Words(BehindCommand(head))[k];
      }
    } else {
      assert HeadOf(line) == line;
    }
  }

  /** No colon but perhaps at the very end. */
  predicate NoEarlyColon(s: string) {
    forall i :: 0 <= i < |s| - 1 ==> s[i] != ':'
  }

  lemma {:induction false} SkipKeepsColons(s: string)
    requires NoEarlyColon(s)
    ensures NoEarlyColon(Skip(s))
  {
    if s == "" || !Blank(s[0]) {
    } else {
      SkipKeepsColons(s[1..]);
    }
  }

  lemma {:induction false} ParamsBlankFree(s: string)
    requires NoEarlyColon(s)
    ensures forall p :: p in ParseParams(s) ==> BlankFree(p)
    decreases |s|
  {
    SkipKeepsColons(s);
    var t := Skip(s);
    if t == "" || t[0] == ':' {
    } else {
      ParamsBlankFree(t[|Token(t)|..]);
    }
  }

  lemma TabDisagrees(line: string)
    requires IndexOf(line, '\t') < IndexOf(line, ':')
    ensures Parse(line) != Some(MergedParse(line))
  {
    assert HeadOf(line)[IndexOf(line, '\t')] == '\t';
    TabInHead(line);
    if Parse(line).Some? {
      ParsedIsWellFormed(line);
      if TrailingOf(line) == "" {
        AllBlankFree(line);
      }
      BlankFreeHasNoTab(Parse(line).value, TrailingOf(line) != "");
    }
  }

  lemma AllBlankFree(line: string)
    requires Parse(line).Some? && TrailingOf(line) == ""
    ensures forall p :: p in Parse(line).value.params ==> BlankFree(p)
  {
    assert NoEarlyColon(line) by {
      assert forall i :: 0 <= i < IndexOf(line, ':') ==> line[..IndexOf(line, ':')][i] != ':';
    }
    SkipKeepsColons(line);
    var s := Skip(line);
    if s != "" && s[0] == ':' {
      OnlyColon(line);
      assert false;
    }
    ParamsBlankFree(s[|Token(s)|..]);
  }

  lemma OnlyColon(line: string)
    requires NoEarlyColon(Skip(line)) && Skip(line) != "" && Skip(line)[0] == ':'
    ensures Parse(line).None?
  {
    assert Skip(line) == ":";
    assert ":"[1..] == "" && Token("") == "";
  }

  lemma BlankFreeHasNoTab(m: Message, trailing: bool)
    requires WellFormed(m) && (!trailing ==> forall p :: p in m.params ==> BlankFree(p))
    ensures Lacks(m.command, '\t')
    ensures forall k :: 0 <= k < |m.params| - (if trailing then 1 else 0) ==> Lacks(m.params[k], '\t')
  {
    forall k | 0 <= k < |m.params| - (if trailing then 1 else 0) ensures Lacks(m.params[k], '\t') {
      assert trailing ==> Middle(m.params[k]);
      assert BlankFree(m.params[k]);
    }
  }

  // ----- the result -----

  /** On every line: the two parsers find the same message exactly if the line is one of those described. */
  lemma MergedParserAgreesIff(line: string)
    ensures Parse(line) == Some(MergedParse(line)) <==> ReadAlike(line)
  {
    if line == "" || line[0] == ' ' || line[0] == ':' {
      NoCommand(line);
    } else if IndexOf(line, '\t') < IndexOf(line, ':') {
      TabDisagrees(line);
    } else {
      StartsWithWord(line);
    }
  }

  lemma StartsWithWord(line: string)
    requires line != "" && line[0] != ' ' && line[0] != ':' && IndexOf(line, ':') <= IndexOf(line, '\t')
    ensures Parse(line) == Some(MergedParse(line)) <==> ReadAlike(line)
  {
    var c, p := IndexOf(line, ':'), IndexOf(line, ' ');
    if c < p {
      ColonInCommand(line);
    } else if p == |line| {
      OneWord(line);
    } else {
      Resplit(line, p);
      SplitAtSpace(line[..p], line[p + 1..]);
      BehindWord(line[..p], line[p + 1..]);
    }
  }

  lemma OneWord(line: string)
    requires line != "" && IndexOf(line, ' ') == IndexOf(line, ':') == IndexOf(line, '\t') == |line|
    ensures Parse(line) == Some(MergedParse(line)) && ReadAlike(line)
  {
    ParseWords(line, "");
  }

  /** Where the first colon is, seen from the space behind the first word. */
  lemma SplitAtSpace(w: string, t: string)
    requires w != "" && w[0] != ':' && Lacks(w, ' ') && |w| <= IndexOf(w + (" " + t), ':')
    requires IndexOf(w + (" " + t), ':') <= IndexOf(w + (" " + t), '\t')
    ensures Plain(w) && Lacks(w, ':') && IndexOf(t, ':') <= IndexOf(t, '\t')
    ensures ReadAlike(w + (" " + t)) <==> ColonFits(t)
  {
    PrefixLacks(w, " " + t, ':');
    PrefixLacks(w, " " + t, '\t');
    IndexBehindSpace(w, t, ':');
    IndexBehindSpace(w, t, '\t');
    BeforeColon(w, t, IndexOf(t, ':'));
    ReadAlikeBehind(w + (" " + t), w, t);
  }

  lemma BeforeColon(w: string, t: string, c: nat)
    requires c <= |t|
    ensures (w + (" " + t))[|w| + c] == ' ' <==> AtWordStart(t[..c])
  {
    assert (w + (" " + t))[|w|] == ' ';
    if c > 0 {
      assert (w + (" " + t))[|w| + c] == t[c - 1] == t[..c][c - 1];
    }
  }

  lemma ReadAlikeBehind(line: string, w: string, t: string)
    requires Plain(w) && |line| == |w| + 1 + |t| && line[0] == w[0] && line[|w|] == ' '
    requires IndexOf(line, ':') == |w| + 1 + IndexOf(t, ':') <= IndexOf(line, '\t')
    requires line[|w| + IndexOf(t, ':')] == ' ' <==> AtWordStart(t[..IndexOf(t, ':')])
    ensures ReadAlike(line) <==> ColonFits(t)
  {
  }

  // ----- what this means for printed messages -----

  /** However a message of the format is laid out, the merged parser reads it as it is
      meant exactly if both parsers read the line alike. */
  lemma PrintedIsReadIff(m: Message, l: Layout)
    requires WellFormed(m) && Fits(l, m)
    ensures MergedParse(Print(m, l)) == m <==> ReadAlike(Print(m, l))
  {
    ParseUndoesPrint(m, l);
    MergedParserAgreesIff(Print(m, l));
  }

  /** Words, each with a space behind it. */
  ghost function Spaced(words: seq<string>): string {
    if words == [] then "" else words[0] + (" " + Spaced(words[1..]))
  }

  lemma {:induction false} SpacedIsClean(words: seq<string>)
    requires forall k :: 0 <= k < |words| ==> Middle(words[k])
    ensures Clean(Spaced(words)) && AtWordStart(Spaced(words))
    ensures Lacks(Spaced(words), ':') <==> forall k :: 0 <= k < |words| ==> Lacks(words[k], ':')
  {
    if words == [] {
    } else {
      SpacedIsClean(words[1..]);
      assert Middle(words[0]);
      CleanJoin(words[0], Spaced(words[1..]));
      assert forall k :: 1 <= k < |words| ==> words[k] == words[1..][k - 1];
    }
  }

  lemma CleanJoin(w: string, t: string)
    requires Plain(w) && Clean(t) && AtWordStart(t)
    ensures Clean(w + (" " + t)) && AtWordStart(w + (" " + t))
    ensures Lacks(w + (" " + t), ':') <==> Lacks(w, ':') && Lacks(t, ':')
  {
    var s, n := w + (" " + t), |w| + 1;
    forall i | 0 <= i < |s|
      ensures s[i] == if i < |w| then w[i] else if i == |w| then ' ' else t[i - n]
    {
    }
    assert forall i :: 0 <= i < |w| ==> w[i] == s[i];
    assert forall i :: 0 <= i < |t| ==> t[i] == s[n + i];
  }

  ghost function Blanks(n: nat): (gaps: seq<string>)
    ensures |gaps| == n
  {
    seq(n, _ => " ")
  }

  lemma {:induction false} CanonicalParams(params: seq<string>)
    requires params != []
    ensures PrintParams(params, Blanks(|params|), true, "") ==
            " " + (Spaced(params[..|params| - 1]) + (":" + params[|params| - 1]))
  {
    var n := |params| - 1;
    if n == 0 {
      assert params[..n] == [];
      assert " " + ("" + (":" + params[0])) == " " + ":" + params[0];
    } else {
      CanonicalParams(params[1..]);
      assert Blanks(n + 1)[1..] == Blanks(n);
      assert params[1..][..n - 1] == params[..n][1..] && params[..n][0] == params[0];
      Regroup(params[0], Spaced(params[..n][1..]), ":" + params[n]);
      Assoc(" ", params[0], " " + (Spaced(params[..n][1..]) + (":" + params[n])));
    }
  }

  /** A message in canonical form, without a prefix. */
  lemma CanonicalLine(m: Message)
    requires WellFormed(m) && m.params != [] && !PrintsPrefix(m)
    ensures Print(m, Canonical(m)) ==
            m.command + (" " + (Spaced(m.params[..|m.params| - 1]) + (":" + m.params[|m.params| - 1])))
  {
    CanonicalParams(m.params);
    assert Canonical(m).gaps == Blanks(|m.params|);
  }

  /** No prefix, no colon in front of the last parameter, and no empty last parameter. */
  ghost predicate Agreed(m: Message) {
    && m.prefix == "" && Lacks(m.command, ':')
    && (forall k :: 0 <= k < |m.params| - 1 ==> Lacks(m.params[k], ':'))
    && (m.params != [] ==> m.params[|m.params| - 1] != "")
  }

  /** In canonical form the merged parser reads exactly such messages as they are meant. */
  lemma CanonicalIsReadIff(m: Message)
    requires WellFormed(m)
    ensures MergedParse(Print(m, Canonical(m))) == m <==> Agreed(m)
  {
    PrintedIsReadIff(m, Canonical(m));
    if PrintsPrefix(m) {
      assert Print(m, Canonical(m))[0] == ':';
    } else if m.params == [] {
      assert Print(m, Canonical(m)) == m.command;
      CommandAlone(m.command);
    } else {
      CanonicalLine(m);
      ParamsAgreed(m, m.params[..|m.params| - 1]);
    }
  }

  lemma ParamsAgreed(m: Message, words: seq<string>)
    requires WellFormed(m) && !PrintsPrefix(m) && m.params != [] && words == m.params[..|m.params| - 1]
    ensures ReadAlike(m.command + (" " + (Spaced(words) + (":" + m.params[|m.params| - 1])))) <==> Agreed(m)
  {
    assert forall k :: 0 <= k < |words| ==> words[k] == m.params[k];
    forall k | 0 <= k < |words| ensures Middle(words[k]) {
      assert Middle(m.params[k]);
    }
    CanonicalFits(m.command, words, m.params[|m.params| - 1]);
  }

  lemma CommandAlone(w: string)
    requires Plain(w)
    ensures ReadAlike(w) <==> Lacks(w, ':')
  {
    SpaceFree(w);
    if Lacks(w, ':') {
      NotThere(w, ':');
    }
    NotThere(w, '\t');
  }

  lemma CanonicalFits(w: string, words: seq<string>, last: string)
    requires Plain(w) && forall k :: 0 <= k < |words| ==> Middle(words[k])
    ensures ReadAlike(w + (" " + (Spaced(words) + (":" + last)))) <==>
              Lacks(w, ':') && (forall k :: 0 <= k < |words| ==> Lacks(words[k], ':')) && last != ""
  {
    var spaced, t := Spaced(words), Spaced(words) + (":" + last);
    SpacedIsClean(words);
    NotThere(w, '\t');
    IndexBehindSpace(w, t, '\t');
    FirstWord(w, t);
    FirstColon(spaced, last);
    if Lacks(w, ':') {
      IndexBehindSpace(w, t, ':');
      SplitAtSpace(w, t);
    } else {
      IndexWithin(w, " " + t, ':');
      assert (w + (" " + t))[0] == w[0];
      ColonInCommand(w + (" " + t));
    }
  }

  lemma FirstColon(a: string, x: string)
    requires Clean(a) && AtWordStart(a)
    ensures
      var t := a + (":" + x);
      IndexOf(t, ':') <= |a| <= IndexOf(t, '\t') && (ColonFits(t) <==> Lacks(a, ':') && x != "")
  {
    var t := a + (":" + x);
    IndexBehind(a, ":" + x, '\t');
    if Lacks(a, ':') {
      ColonAt(a, x);
      assert t[..|a|] == a;
    } else {
      IndexWithin(a, ":" + x, ':');
      var c := IndexOf(a, ':');
      assert c > 0 && a[c - 1] != ' ' && t[..c][c - 1] == a[c - 1];
    }
  }

  lemma {:induction false} IndexWithin(w: string, t: string, c: char)
    requires !Lacks(w, c)
    ensures IndexOf(w + t, c) == IndexOf(w, c) < |w|
  {
    assert (w + t)[0] == w[0];
    if w[0] == c {
    } else {
      assert (w + t)[1..] == w[1..] + t;
      assert exists i :: 0 <= i < |w[1..]| && w[1..][i] == c by {
        var i :| 0 <= i < |w| && w[i] == c;
        assert w[1..][i - 1] == c;
      }
      IndexWithin(w[1..], t, c);
    }
  }

  /** A parameter with a colon inside a word: the merged parser cuts it in two. */
  lemma CutsParameter(w: string, p: string, a: string, x: string)
    requires Plain(w) && Plain(p) && Plain(a) && Plain(x) && Lacks(w, ':') && Lacks(p, ':') && Lacks(a, ':')
    ensures
      var line := w + (" " + (p + (" " + (a + (":" + x)))));
      && Parse(line) == Some(Message("", w, [p, a + (":" + x)]))
      && MergedParse(line) == Message("", w, [p, a, x])
  {
    KeepsWord(w, p, a + (":" + x), a, x);
    CutsWord(w, p, a, x);
  }

  lemma CutsWord(w: string, p: string, a: string, x: string)
    requires Plain(w) && Plain(p) && Plain(a) && x != "" && Lacks(w, ':') && Lacks(p, ':') && Lacks(a, ':')
    ensures MergedParse(w + (" " + (p + (" " + (a + (":" + x)))))) == Message("", w, [p, a, x])
  {
    LacksJoin(p, " " + a, ':');
    Regroup(p, a, ":" + x);
    MergedTrailing(w, p + (" " + a), x);
    WordStep(p, a);
    WordAlone(a);
    Three(p, a, x);
  }

  lemma KeepsWord(w: string, p: string, word: string, a: string, x: string)
    requires Plain(w) && Plain(p) && Plain(a) && Plain(x) && word == a + (":" + x)
    ensures Parse(w + (" " + (p + (" " + word)))) == Some(Message("", w, [p, word]))
  {
    PlainJoin(a, ":" + x);
    ParseWords(w, p + (" " + word));
    WordStep(p, word);
    WordAlone(word);
    Two(p, word);
  }

  lemma Two(a: string, b: string)
    ensures [a] + [b] == [a, b]
  {
  }

  lemma Three(a: string, b: string, c: string)
    ensures [a] + [b] + [c] == [a, b, c]
  {
  }

  lemma PlainJoin(a: string, b: string)
    requires Plain(a) && BlankFree(b)
    ensures Plain(a + b)
  {
  }

  lemma LacksJoin(a: string, b: string, c: char)
    requires Lacks(a, c) && Lacks(b, c)
    ensures Lacks(a + b, c)
  {
  }

  /** A key with a colon in it. */
  lemma CutKey()
    ensures Parse("JOIN #room a:b") == Some(Message("", "JOIN", ["#room", "a:b"]))
    ensures MergedParse("JOIN #room a:b") == Message("", "JOIN", ["#room", "a", "b"])
  {
    var w, p, a, x := "JOIN", "#room", "a", "b";
    KeyWords(w, p, a, x);
    CutsParameter(w, p, a, x);
  }

  lemma KeyWords(w: string, p: string, a: string, x: string)
    requires w == "JOIN" && p == "#room" && a == "a" && x == "b"
    ensures Plain(w) && Plain(p) && Plain(a) && Plain(x) && Lacks(w, ':') && Lacks(p, ':') && Lacks(a, ':')
    ensures a + (":" + x) == "a:b" && w + (" " + (p + (" " + (a + (":" + x))))) == "JOIN #room a:b"
  {
  }

  /** A tab between two words: the merged parser takes all of it for the command. */
  lemma TabBetween(w: string, x: string)
    requires Plain(w) && Plain(x) && Lacks(w, ':') && Lacks(x, ':')
    ensures Parse(w + ("\t" + x)) == Some(Message("", w, [x]))
    ensures MergedParse(w + ("\t" + x)) == Message("", w + ("\t" + x), [])
  {
    var line := w + ("\t" + x);
    assert line[..|w|] == w && line[|w|] == '\t' && line[|w|..] == "\t" + x;
    TokenIs(line, |w|);
    assert line[0] == w[0] && Skip(line) == line;
    AfterTab(x);
    LacksJoin(w, "\t" + x, ':');
    LacksJoin(w, "\t" + x, ' ');
  }

  lemma AfterTab(x: string)
    requires Plain(x)
    ensures ParseParams("\t" + x) == [x]
  {
    assert ("\t" + x)[..1] == "\t" && ("\t" + x)[1..] == x;
    SkipIs("\t" + x, 1);
    WordAlone(x);
  }

  /** A space in front of a line: the merged parser finds an empty command, the other one does not care. */
  lemma SpaceInFront(line: string)
    ensures Parse(" " + line) == Parse(line) && MergedParse(" " + line).command == ""
  {
    var s := " " + line;
    assert s[1..] == line && Skip(s) == Skip(line);
    assert HeadOf(s) != "" && HeadOf(s)[0] == ' ';
    IndexIs(HeadOf(s), ' ', 0);
  }
}
