/** The Game of Life on a bounded board, dead outside, and the pen that draws the
    first generation, as values: a generation is the set of its live cells. */
module LifeRule {
  import opened Squares

  function One(live: set<Cell>, i: int, j: int): nat {
    if Cell(i, j) in live then 1 else 0
  }

  /** How many of the eight neighbours are alive. */
  ghost function LiveAround(live: set<Cell>, c: Cell): nat {
    var i, j := c.i, c.j;
    One(live, i - 1, j - 1) + One(live, i - 1, j) + One(live, i - 1, j + 1) +
    One(live, i, j - 1) + One(live, i, j + 1) +
    One(live, i + 1, j - 1) + One(live, i + 1, j) + One(live, i + 1, j + 1)
  }

  ghost predicate Survives(live: set<Cell>, c: Cell) {
    var n := LiveAround(live, c);
    n == 3 || (n == 2 && c in live)
  }

  /** One round: births on three neighbours, survival on two or three. */
  ghost function Next(live: set<Cell>, h: nat, w: nat): set<Cell> {
    set i, j | 0 <= i < h && 0 <= j < w && Survives(live, Cell(i, j)) :: Cell(i, j)
  }

  lemma InNext(live: set<Cell>, h: nat, w: nat, c: Cell)
    ensures c in Next(live, h, w) <==> 0 <= c.i < h && 0 <= c.j < w && Survives(live, c)
  {
    assert c == Cell(c.i, c.j);
  }

  ghost function Generation(live: set<Cell>, h: nat, w: nat, k: nat): set<Cell>
    decreases k
  {
    if k == 0 then live else Generation(Next(live, h, w), h, w, k - 1)
  }

  // ----- symmetries -----

  /** The reflections that generate all symmetries of a board. */
  datatype Symmetry = Transposed | UpsideDown(h: nat) | Mirrored(w: nat)

  function Image(f: Symmetry, c: Cell): Cell {
    match f
    case Transposed => Cell(c.j, c.i)
    case UpsideDown(h) => Cell(h - 1 - c.i, c.j)
    case Mirrored(w) => Cell(c.i, w - 1 - c.j)
  }

  /** The symmetry fits a board of `h` rows and `w` columns. */
  ghost predicate FitsBoard(f: Symmetry, h: nat, w: nat) {
    match f
    case Transposed => true
    case UpsideDown(h') => h' == h
    case Mirrored(w') => w' == w
  }

  ghost function Images(f: Symmetry, cells: set<Cell>): set<Cell> {
    set c | c in cells :: Image(f, c)
  }

  lemma TwiceIsSame(f: Symmetry, c: Cell)
    ensures Image(f, Image(f, c)) == c
  {
  }

  lemma InImages(f: Symmetry, cells: set<Cell>, d: Cell)
    ensures d in Images(f, cells) <==> Image(f, d) in cells
  {
    TwiceIsSame(f, d);
    forall c | c in cells && Image(f, c) == d ensures Image(f, d) == c {
      TwiceIsSame(f, c);
    }
  }

  lemma OneMoves(f: Symmetry, live: set<Cell>, i: int, j: int)
    ensures var d := Image(f, Cell(i, j)); One(Images(f, live), d.i, d.j) == One(live, i, j)
  {
    InImages(f, live, Image(f, Cell(i, j)));
    TwiceIsSame(f, Cell(i, j));
  }

  /** A reflection permutes the eight neighbours. */
  lemma NeighboursMove(f: Symmetry, live: set<Cell>, c: Cell)
    ensures LiveAround(Images(f, live), Image(f, c)) == LiveAround(live, c)
  {
    var i, j := c.i, c.j;
    OneMoves(f, live, i - 1, j - 1);
    OneMoves(f, live, i - 1, j);
    OneMoves(f, live, i - 1, j + 1);
    OneMoves(f, live, i, j - 1);
    OneMoves(f, live, i, j + 1);
    OneMoves(f, live, i + 1, j - 1);
    OneMoves(f, live, i + 1, j);
    OneMoves(f, live, i + 1, j + 1);
    var images, d := Images(f, live), Image(f, c);
    match f {
      case Transposed =>
      case UpsideDown(h) =>
        assert h - 1 - (i - 1) == d.i + 1 && h - 1 - (i + 1) == d.i - 1;
      case Mirrored(w) =>
        assert w - 1 - (j - 1) == d.j + 1 && w - 1 - (j + 1) == d.j - 1;
    }
  }

  lemma SurvivalMoves(f: Symmetry, live: set<Cell>, c: Cell)
    ensures Survives(Images(f, live), Image(f, c)) <==> Survives(live, c)
  {
    NeighboursMove(f, live, c);
    InImages(f, live, Image(f, c));
    TwiceIsSame(f, c);
  }

  /** The measures of the reflected board. */
  function Height(f: Symmetry, h: nat, w: nat): nat {
    if f.Transposed? then w else h
  }

  function Width(f: Symmetry, h: nat, w: nat): nat {
    if f.Transposed? then h else w
  }

  /** A round commutes with every reflection of the board. */
  lemma RoundCommutes(f: Symmetry, live: set<Cell>, images: set<Cell>, h: nat, w: nat)
    requires FitsBoard(f, h, w) && images == Images(f, live)
    ensures Next(images, Height(f, h, w), Width(f, h, w)) == Images(f, Next(live, h, w))
  {
    forall d ensures d in Next(images, Height(f, h, w), Width(f, h, w)) <==> d in Images(f, Next(live, h, w)) {
      var c := Image(f, d);
      TwiceIsSame(f, d);
      InImages(f, Next(live, h, w), d);
      InNext(live, h, w, c);
      InNext(images, Height(f, h, w), Width(f, h, w), d);
      SurvivalMoves(f, live, c);
    }
  }

  /** So does any number of rounds. */
  lemma {:induction false} GenerationsCommute(f: Symmetry, live: set<Cell>, images: set<Cell>, h: nat, w: nat, k: nat)
    requires FitsBoard(f, h, w) && images == Images(f, live)
    ensures Generation(images, Height(f, h, w), Width(f, h, w), k) == Images(f, Generation(live, h, w, k))
    decreases k
  {
    if k == 0 {
    } else {
      RoundCommutes(f, live, images, h, w);
      GenerationsCommute(f, Next(live, h, w), Next(images, Height(f, h, w), Width(f, h, w)), h, w, k - 1);
    }
  }

  // ----- the pen -----

  datatype Pen = Pen(i: int, j: int, down: bool)

  /** Moves stop at the border; 'x' lifts or lowers the pen; other characters do nothing. */
  function Moved(p: Pen, h: nat, w: nat, command: char): Pen {
    if command == 'w' then (if p.i > 0 then p.(i := p.i - 1) else p)
    else if command == 's' then (if p.i < h - 1 then p.(i := p.i + 1) else p)
    else if command == 'a' then (if p.j > 0 then p.(j := p.j - 1) else p)
    else if command == 'd' then (if p.j < w - 1 then p.(j := p.j + 1) else p)
    else if command == 'x' then p.(down := !p.down)
    else p
  }

  predicate PenCommand(command: char) {
    command in "wsadx"
  }

  function PenAfter(commands: string, h: nat, w: nat): Pen {
    if commands == "" then Pen(0, 0, false)
    else Moved(PenAfter(commands[..|commands| - 1], h, w), h, w, commands[|commands| - 1])
  }

  /** The cells at which a command of the pen left it lowered. */
  ghost function Drawing(commands: string, h: nat, w: nat): set<Cell> {
    set k | 0 <= k < |commands| && PenCommand(commands[k]) && PenAfter(commands[..k + 1], h, w).down
      :: Cell(PenAfter(commands[..k + 1], h, w).i, PenAfter(commands[..k + 1], h, w).j)
  }

  lemma {:induction false} PenStaysOnBoard(commands: string, h: nat, w: nat)
    requires h > 0 && w > 0
    ensures var p := PenAfter(commands, h, w); 0 <= p.i < h && 0 <= p.j < w
  {
    if commands == "" {
    } else {
      PenStaysOnBoard(commands[..|commands| - 1], h, w);
    }
  }

  /** The drawing after one more command. */
  lemma DrawingGrows(commands: string, n: nat, h: nat, w: nat)
    requires n < |commands|
    ensures
      var p := PenAfter(commands[..n + 1], h, w);
      && p == Moved(PenAfter(commands[..n], h, w), h, w, commands[n])
      && Drawing(commands[..n + 1], h, w) ==
         Drawing(commands[..n], h, w) + if PenCommand(commands[n]) && p.down then {Cell(p.i, p.j)} else {}
  {
    var long, short := commands[..n + 1], commands[..n];
    assert long[..n] == short;
    assert forall k :: 0 <= k < n ==> long[..k + 1] == short[..k + 1] && long[k] == short[k];
    assert long[..n + 1] == long;
  }

  // ----- what the pen does, counted -----

  function Count(s: string, c: char): nat {
    if s == "" then 0 else Count(s[..|s| - 1], c) + if s[|s| - 1] == c then 1 else 0
  }

  /** How far down and how far right the commands lead, without a border. */
  function Down(commands: string): int {
    Count(commands, 's') - Count(commands, 'w')
  }

  function Right(commands: string): int {
    Count(commands, 'd') - Count(commands, 'a')
  }

  predicate StaysInside(commands: string, h: nat, w: nat) {
    forall k :: 0 <= k <= |commands| ==> 0 <= Down(commands[..k]) < h && 0 <= Right(commands[..k]) < w
  }

  /** While the commands do not lead beyond the border, the pen is where their counts
      say, and it is down after an odd number of 'x'. */
  lemma {:induction false} PenIsDisplaced(commands: string, h: nat, w: nat)
    requires StaysInside(commands, h, w)
    ensures PenAfter(commands, h, w) == Pen(Down(commands), Right(commands), Count(commands, 'x') % 2 == 1)
  {
    assert commands[..|commands|] == commands;
    if commands == "" {
    } else {
      var before := commands[..|commands| - 1];
      forall k | 0 <= k <= |before| ensures 0 <= Down(before[..k]) < h && 0 <= Right(before[..k]) < w {
        assert before[..k] == commands[..k];
      }
      PenIsDisplaced(before, h, w);
      assert before[..|before|] == before;
    }
  }

  function Clamp(x: int, n: nat): int {
    if x < 0 then 0 else if x >= n then n - 1 else x
  }

  /** On the board each command moves the pen by one cell its way, or leaves it at the
      border; no other command changes whether it is down. */
  lemma MovesAreClamped(p: Pen, h: nat, w: nat, command: char)
    requires 0 <= p.i < h && 0 <= p.j < w
    ensures Moved(p, h, w, command) ==
      Pen(Clamp(p.i + Down([command]), h), Clamp(p.j + Right([command]), w), p.down != (command == 'x'))
  {
    assert [command][..0] == "";
    assert Count([command], 's') == if command == 's' then 1 else 0;
    assert Count([command], 'w') == if command == 'w' then 1 else 0;
    assert Count([command], 'd') == if command == 'd' then 1 else 0;
    assert Count([command], 'a') == if command == 'a' then 1 else 0;
  }

  // ----- the neighbours as a set -----

  predicate Near(x: int, y: int) {
    -1 <= x - y <= 1
  }

  /** The live cells around a cell. */
  ghost function Neighbours(live: set<Cell>, c: Cell): set<Cell> {
    set d | d in live && d != c && Near(d.i, c.i) && Near(d.j, c.j)
  }

  ghost function AtMostOne(live: set<Cell>, i: int, j: int): (cells: set<Cell>)
    ensures |cells| == One(live, i, j)
  {
    if Cell(i, j) in live then {Cell(i, j)} else {}
  }

  lemma DisjointSizes(a: set<Cell>, b: set<Cell>, c: set<Cell>)
    requires a !! b && a !! c && b !! c
    ensures |a + b + c| == |a| + |b| + |c|
  {
  }

  /** The live cells of row `i` near column `j`. */
  ghost function RowOf(live: set<Cell>, i: int, j: int): set<Cell> {
    set d | d in live && d.i == i && Near(d.j, j)
  }

  lemma RowSize(live: set<Cell>, i: int, j: int)
    ensures |RowOf(live, i, j)| == One(live, i, j - 1) + One(live, i, j) + One(live, i, j + 1)
  {
    RowIs(live, i, j);
    DisjointSizes(AtMostOne(live, i, j - 1), AtMostOne(live, i, j), AtMostOne(live, i, j + 1));
  }

  lemma RowIs(live: set<Cell>, i: int, j: int)
    ensures RowOf(live, i, j) == AtMostOne(live, i, j - 1) + AtMostOne(live, i, j) + AtMostOne(live, i, j + 1)
  {
    var places := AtMostOne(live, i, j - 1) + AtMostOne(live, i, j) + AtMostOne(live, i, j + 1);
    forall d ensures d in RowOf(live, i, j) <==> d in places {
      assert d == Cell(d.i, d.j);
    }
  }

  lemma RowsMakeNeighbours(live: set<Cell>, c: Cell)
    ensures
      var others := live - {c};
      Neighbours(live, c) == RowOf(others, c.i - 1, c.j) + RowOf(others, c.i, c.j) + RowOf(others, c.i + 1, c.j)
  {
  }

  lemma OnesOfOthers(live: set<Cell>, c: Cell, i: int, j: int)
    ensures One(live - {c}, i, j) == if c == Cell(i, j) then 0 else One(live, i, j)
  {
  }

  /** A row that does not hold the cell itself. */
  lemma OtherRow(live: set<Cell>, c: Cell, i: int)
    requires i != c.i
    ensures |RowOf(live - {c}, i, c.j)| == One(live, i, c.j - 1) + One(live, i, c.j) + One(live, i, c.j + 1)
  {
    RowSize(live - {c}, i, c.j);
    OnesOfOthers(live, c, i, c.j - 1);
    OnesOfOthers(live, c, i, c.j);
    OnesOfOthers(live, c, i, c.j + 1);
  }

  lemma OwnRow(live: set<Cell>, c: Cell)
    ensures |RowOf(live - {c}, c.i, c.j)| == One(live, c.i, c.j - 1) + One(live, c.i, c.j + 1)
  {
    RowSize(live - {c}, c.i, c.j);
    OnesOfOthers(live, c, c.i, c.j - 1);
    OnesOfOthers(live, c, c.i, c.j);
    OnesOfOthers(live, c, c.i, c.j + 1);
  }

  lemma NeighboursSize(live: set<Cell>, c: Cell)
    ensures
      var others := live - {c};
      |Neighbours(live, c)| ==
      |RowOf(others, c.i - 1, c.j)| + |RowOf(others, c.i, c.j)| + |RowOf(others, c.i + 1, c.j)|
  {
    var others := live - {c};
    RowsMakeNeighbours(live, c);
    DisjointSizes(RowOf(others, c.i - 1, c.j), RowOf(others, c.i, c.j), RowOf(others, c.i + 1, c.j));
  }

  /** The sum over the eight places is the number of live neighbours. */
  lemma LiveAroundCounts(live: set<Cell>, c: Cell)
    ensures LiveAround(live, c) == |Neighbours(live, c)|
  {
    NeighboursSize(live, c);
    OtherRow(live, c, c.i - 1);
    OwnRow(live, c);
    OtherRow(live, c, c.i + 1);
  }

  /** The rule in those terms. */
  lemma LivesNextIff(live: set<Cell>, h: nat, w: nat, c: Cell)
    ensures c in Next(live, h, w) <==>
      0 <= c.i < h && 0 <= c.j < w && (|Neighbours(live, c)| == 3 || (|Neighbours(live, c)| == 2 && c in live))
  {
    InNext(live, h, w, c);
    LiveAroundCounts(live, c);
  }

  /** Three cells in a row turn into three in a column, and back. */
  lemma BlinkerTurns()
    ensures
      var live, turned := {Cell(1, 0), Cell(1, 1), Cell(1, 2)}, {Cell(0, 1), Cell(1, 1), Cell(2, 1)};
      Generation(live, 3, 3, 1) == turned && Generation(live, 3, 3, 2) == live
  {
    RowTurns();
    ColumnTurns();
    var live, turned := {Cell(1, 0), Cell(1, 1), Cell(1, 2)}, {Cell(0, 1), Cell(1, 1), Cell(2, 1)};
    assert Generation(turned, 3, 3, 1) == Generation(live, 3, 3, 0);
  }

  lemma ColumnTurns()
    ensures Next({Cell(0, 1), Cell(1, 1), Cell(2, 1)}, 3, 3) == {Cell(1, 0), Cell(1, 1), Cell(1, 2)}
  {
    var live, turned := {Cell(0, 1), Cell(1, 1), Cell(2, 1)}, {Cell(1, 0), Cell(1, 1), Cell(1, 2)};
    assert forall i, j :: One(live, i, j) == if j == 1 && 0 <= i <= 2 then 1 else 0;
    forall c ensures c in Next(live, 3, 3) <==> c in turned {
      InNext(live, 3, 3, c);
      assert c == Cell(c.i, c.j);
      assert c in live <==> One(live, c.i, c.j) == 1;
    }
  }

  lemma RowTurns()
    ensures Next({Cell(1, 0), Cell(1, 1), Cell(1, 2)}, 3, 3) == {Cell(0, 1), Cell(1, 1), Cell(2, 1)}
  {
    var live, turned := {Cell(1, 0), Cell(1, 1), Cell(1, 2)}, {Cell(0, 1), Cell(1, 1), Cell(2, 1)};
    assert forall i, j :: One(live, i, j) == if i == 1 && 0 <= j <= 2 then 1 else 0;
    forall c ensures c in Next(live, 3, 3) <==> c in turned {
      InNext(live, 3, 3, c);
      assert c == Cell(c.i, c.j);
      assert c in live <==> One(live, c.i, c.j) == 1;
    }
  }

  /** Four cells in a square stay as they are. */
  lemma BlockStays()
    ensures
      var block := {Cell(0, 0), Cell(0, 1), Cell(1, 0), Cell(1, 1)};
      Next(block, 3, 3) == block
  {
    var block := {Cell(0, 0), Cell(0, 1), Cell(1, 0), Cell(1, 1)};
    assert forall i, j :: One(block, i, j) == if 0 <= i <= 1 && 0 <= j <= 1 then 1 else 0;
    forall c ensures c in Next(block, 3, 3) <==> c in block {
      InNext(block, 3, 3, c);
      assert c == Cell(c.i, c.j);
      assert c in block <==> One(block, c.i, c.j) == 1;
    }
  }
}
