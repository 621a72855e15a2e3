/** Two Game of Life programs: one builds each round on a new board and swaps it in
    (pracprac/practice05/level1/Life/life.c), the other copies it back in place
    (pracprac/drPractice/lvl_01/00_subject/life/life.c). */
module Life {
  import opened Squares
  import opened LifeRule

  /** The live cells of a board whose live cells carry the given character. */
  ghost function LiveCells(board: array2<char>, alive: char): set<Cell>
    reads board
  {
    set i, j | 0 <= i < board.Length0 && 0 <= j < board.Length1 && board[i, j] == alive :: Cell(i, j)
  }

  lemma InLiveCells(board: array2<char>, alive: char, c: Cell)
    ensures c in LiveCells(board, alive) <==>
      0 <= c.i < board.Length0 && 0 <= c.j < board.Length1 && board[c.i, c.j] == alive
  {
    assert c == Cell(c.i, c.j);
  }

  /** Every cell is drawn either alive or dead. */
  ghost predicate OnlyGlyphs(board: array2<char>, alive: char, dead: char)
    reads board
  {
    forall i, j :: 0 <= i < board.Length0 && 0 <= j < board.Length1 ==> board[i, j] == alive || board[i, j] == dead
  }

  method BlankBoard(height: nat, width: nat, alive: char) returns (board: array2<char>)
    requires alive != ' '
    ensures fresh(board) && board.Length0 == height && board.Length1 == width
    ensures LiveCells(board, alive) == {} && OnlyGlyphs(board, alive, ' ')
  {
    board := new char[height, width]((_, _) => ' ');
  }

  // ----- counting neighbours -----

  /** What the neighbour at an offset counts; the cell itself counts nothing. */
  ghost function AtOffset(live: set<Cell>, c: Cell, di: int, dj: int): nat {
    if di == 0 && dj == 0 then 0 else One(live, c.i + di, c.j + dj)
  }

  ghost function RowCount(live: set<Cell>, c: Cell, di: int): nat {
    AtOffset(live, c, di, -1) + AtOffset(live, c, di, 0) + AtOffset(live, c, di, 1)
  }

  ghost function ColumnCount(live: set<Cell>, c: Cell, dj: int): nat {
    AtOffset(live, c, -1, dj) + AtOffset(live, c, 0, dj) + AtOffset(live, c, 1, dj)
  }

  /** Row by row or column by column, the neighbours are the same. */
  lemma CountByLines(live: set<Cell>, c: Cell)
    ensures RowCount(live, c, -1) + RowCount(live, c, 0) + RowCount(live, c, 1) == LiveAround(live, c)
    ensures ColumnCount(live, c, -1) + ColumnCount(live, c, 0) + ColumnCount(live, c, 1) == LiveAround(live, c)
  {
  }

  /** The guarded look at one neighbour: outside the board every cell is dead. */
  method LivesAt(board: array2<char>, alive: char, i: int, j: int) returns (here: bool)
    ensures here <==> Cell(i, j) in LiveCells(board, alive)
  {
    InLiveCells(board, alive, Cell(i, j));
    here := i >= 0 && j >= 0 && i < board.Length0 && j < board.Length1 && board[i, j] == alive;
  }

  method CountNeighbors(board: array2<char>, alive: char, i: nat, j: nat) returns (count: int)
    requires i < board.Length0 && j < board.Length1
    ensures count == LiveAround(LiveCells(board, alive), Cell(i, j))
  {
    ghost var live, c := LiveCells(board, alive), Cell(i, j);
    count := 0;
    CountByLines(live, c);
    var di := -1;
    while di < 2
      invariant -1 <= di <= 2
      invariant count == (if di > -1 then RowCount(live, c, -1) else 0) + (if di > 0 then RowCount(live, c, 0) else 0) +
                         (if di > 1 then RowCount(live, c, 1) else 0)
    {
      var inRow := CountRow(board, alive, i, j, di);
      count := count + inRow;
      di := di + 1;
    }
  }

  /** The inner loop, over one row of neighbours. */
  method CountRow(board: array2<char>, alive: char, i: int, j: int, di: int) returns (count: int)
    ensures count == RowCount(LiveCells(board, alive), Cell(i, j), di)
  {
    ghost var live, c := LiveCells(board, alive), Cell(i, j);
    count := 0;
    var dj := -1;
    while dj < 2
      invariant -1 <= dj <= 2
      invariant count == (if dj > -1 then AtOffset(live, c, di, -1) else 0) +
                         (if dj > 0 then AtOffset(live, c, di, 0) else 0) +
                         (if dj > 1 then AtOffset(live, c, di, 1) else 0)
    {
      if di == 0 && dj == 0 {
        dj := dj + 1;
        continue;
      }
      var here := LivesAt(board, alive, i + di, j + dj);
      if here {
        count := count + 1;
      }
      dj := dj + 1;
    }
  }

  /** The other program takes the column offset first. */
  method CountNeighboors(board: array2<char>, y: nat, x: nat) returns (count: int)
    requires y < board.Length0 && x < board.Length1
    ensures count == LiveAround(LiveCells(board, 'O'), Cell(y, x))
  {
    ghost var live, c := LiveCells(board, 'O'), Cell(y, x);
    count := 0;
    CountByLines(live, c);
    var i := -1;
    while i <= 1
      invariant -1 <= i <= 2
      invariant count == (if i > -1 then ColumnCount(live, c, -1) else 0) +
                         (if i > 0 then ColumnCount(live, c, 0) else 0) +
                         (if i > 1 then ColumnCount(live, c, 1) else 0)
    {
      var inColumn := CountColumn(board, y, x, i);
      count := count + inColumn;
      i := i + 1;
    }
  }

  method CountColumn(board: array2<char>, y: int, x: int, i: int) returns (count: int)
    ensures count == ColumnCount(LiveCells(board, 'O'), Cell(y, x), i)
  {
    ghost var live, c := LiveCells(board, 'O'), Cell(y, x);
    count := 0;
    var j := -1;
    while j <= 1
      invariant -1 <= j <= 2
      invariant count == (if j > -1 then AtOffset(live, c, -1, i) else 0) +
                         (if j > 0 then AtOffset(live, c, 0, i) else 0) +
                         (if j > 1 then AtOffset(live, c, 1, i) else 0)
    {
      if j == 0 && i == 0 {
        j := j + 1;
        continue;
      }
      var here := LivesAt(board, 'O', y + j, x + i);
      if here {
        count := count + 1;
      }
      j := j + 1;
    }
  }

  // ----- one round -----

  /** The board shows the cells of `next` in every place before (i, j) in reading order. */
  ghost predicate ShowsUpTo(board: array2<char>, alive: char, dead: char, next: set<Cell>, i: int, j: int)
    reads board
  {
    forall r, c :: 0 <= r < board.Length0 && 0 <= c < board.Length1 && (r < i || (r == i && c < j)) ==>
      board[r, c] == if Cell(r, c) in next then alive else dead
  }

  lemma ShowsAll(board: array2<char>, alive: char, dead: char, next: set<Cell>)
    requires alive != dead && ShowsUpTo(board, alive, dead, next, board.Length0, 0)
    requires OnBoard(next, board.Length0, board.Length1)
    ensures LiveCells(board, alive) == next && OnlyGlyphs(board, alive, dead)
  {
    forall c ensures c in LiveCells(board, alive) <==> c in next {
      InLiveCells(board, alive, c);
      assert c == Cell(c.i, c.j);
    }
  }

  lemma NextOnBoard(live: set<Cell>, h: nat, w: nat)
    ensures OnBoard(Next(live, h, w), h, w)
  {
  }

  /** The rule as both programs write it. */
  lemma RuleIs(live: set<Cell>, h: nat, w: nat, i: nat, j: nat, neighbors: int)
    requires i < h && j < w && neighbors == LiveAround(live, Cell(i, j))
    ensures Cell(i, j) in Next(live, h, w) <==>
      if Cell(i, j) in live then neighbors == 2 || neighbors == 3 else neighbors == 3
  {
    InNext(live, h, w, Cell(i, j));
  }

  class Game {
    const height: nat
    const width: nat
    const alive: char
    const dead: char
    var i: int
    var j: int
    var draw: bool
    var board: array2<char>

    ghost predicate Valid()
      reads this`board, board
    {
      && board.Length0 == height && board.Length1 == width
      && alive != dead && OnlyGlyphs(board, alive, dead)
    }

    ghost function Live(): set<Cell>
      reads this`board, board
    {
      LiveCells(board, alive)
    }

    /** The program draws live cells as the digit zero. */
    constructor (width: nat, height: nat)
      ensures Valid() && this.width == width && this.height == height && alive == '0' && dead == ' '
      ensures Live() == {} && Pen(i, j, draw) == Pen(0, 0, false) && fresh(board)
    {
      this.width, this.height := width, height;
      alive, dead := '0', ' ';
      i, j, draw := 0, 0, false;
      var blank := BlankBoard(height, width, '0');
      board := blank;
    }

    /** The pen reads its commands; afterwards the live cells are its drawing. */
    method FillBoard(commands: string)
      requires Valid() && Live() == {} && Pen(i, j, draw) == Pen(0, 0, false)
      modifies this`i, this`j, this`draw, board
      ensures Valid() && Pen(i, j, draw) == PenAfter(commands, height, width)
      ensures height > 0 && width > 0 ==> Live() == Drawing(commands, height, width)
      ensures height == 0 || width == 0 ==> Live() == {}
    {
      var n := 0;
      assert commands[..0] == "";
      while n < |commands|
        invariant 0 <= n <= |commands| && Valid()
        invariant Pen(i, j, draw) == PenAfter(commands[..n], height, width)
        invariant Live() == if height > 0 && width > 0 then Drawing(commands[..n], height, width) else {}
      {
        DrawingGrows(commands, n, height, width);
        if height > 0 && width > 0 {
          PenStaysOnBoard(commands[..n + 1], height, width);
        }
        Obey(commands[n]);
        n := n + 1;
      }
      assert commands[..n] == commands;
    }

    method Obey(buffer: char)
      requires Valid()
      modifies this`i, this`j, this`draw, board
      ensures Valid() && Pen(i, j, draw) == Moved(old(Pen(i, j, draw)), height, width, buffer)
      ensures Live() == old(Live()) +
        if draw && PenCommand(buffer) && 0 <= i < height && 0 <= j < width then {Cell(i, j)} else {}
    {
      var flag := MovePen(buffer);
      if draw && flag == 0 {
        if i >= 0 && i < height && j >= 0 && j < width {
          Light(board, alive, i, j);
        }
      }
    }

    /** The switch over the command; the flag marks a character that is none. */
    method MovePen(buffer: char) returns (flag: int)
      modifies this`i, this`j, this`draw
      ensures Pen(i, j, draw) == Moved(old(Pen(i, j, draw)), height, width, buffer)
      ensures flag == if PenCommand(buffer) then 0 else 1
    {
      flag := 0;
      match buffer
      case 'w' => if i > 0 { i := i - 1; }
      case 's' => if i < height - 1 { i := i + 1; }
      case 'a' => if j > 0 { j := j - 1; }
      case 'd' => if j < width - 1 { j := j + 1; }
      case 'x' => draw := !draw;
      case _ => flag := 1;
    }

    /** Writes one cell of the new board. */
    method PlayCell(temp: array2<char>, ghost next: set<Cell>, i: nat, j: nat, lives: bool)
      requires i < temp.Length0 && j < temp.Length1 && (lives <==> Cell(i, j) in next)
      requires ShowsUpTo(temp, alive, dead, next, i, j)
      modifies temp
      ensures ShowsUpTo(temp, alive, dead, next, i, j + 1)
    {
      if lives {
        temp[i, j] := alive;
      } else {
        temp[i, j] := dead;
      }
    }

    /** The rule for one cell. */
    method LivesOn(i: nat, j: nat) returns (lives: bool)
      requires Valid() && i < height && j < width
      ensures lives <==> Cell(i, j) in Next(Live(), height, width)
    {
      var neighbors := CountNeighbors(board, alive, i, j);
      InLiveCells(board, alive, Cell(i, j));
      RuleIs(Live(), height, width, i, j, neighbors);
      if board[i, j] == alive {
        lives := neighbors == 2 || neighbors == 3;
      } else {
        lives := neighbors == 3;
      }
    }

    /** One round on a new board that replaces the old one. */
    method Play()
      requires Valid()
      modifies this`board
      ensures Valid() && fresh(board) && Live() == Next(old(Live()), height, width)
    {
      ghost var live, next := Live(), Next(Live(), height, width);
      var temp := new char[height, width]((_, _) => ' ');
      var i := 0;
      while i < height
        invariant 0 <= i <= height && ShowsUpTo(temp, alive, dead, next, i, 0)
        modifies temp
      {
        var j := 0;
        while j < width
          invariant 0 <= j <= width && ShowsUpTo(temp, alive, dead, next, i, j)
          modifies temp
        {
          var lives := LivesOn(i, j);
          PlayCell(temp, next, i, j, lives);
          j := j + 1;
        }
        i := i + 1;
      }
      NextOnBoard(live, height, width);
      ShowsAll(temp, alive, dead, next);
      board := temp;
    }
  }

  method Light(board: array2<char>, alive: char, i: nat, j: nat)
    requires i < board.Length0 && j < board.Length1
    modifies board
    ensures LiveCells(board, alive) == old(LiveCells(board, alive)) + {Cell(i, j)}
    ensures forall dead :: old(OnlyGlyphs(board, alive, dead)) ==> OnlyGlyphs(board, alive, dead)
  {
    board[i, j] := alive;
  }

  /** The whole first program: draw, then play. */
  method RunGame(width: nat, height: nat, iterations: nat, commands: string) returns (game: Game)
    ensures fresh(game) && game.Valid() && game.height == height && game.width == width
    ensures game.alive == '0' && game.dead == ' '
    ensures height > 0 && width > 0 ==>
      game.Live() == Generation(Drawing(commands, height, width), height, width, iterations)
  {
    game := new Game(width, height);
    game.FillBoard(commands);
    ghost var start := game.Live();
    var i := 0;
    while i < iterations
      invariant 0 <= i <= iterations && fresh(game) && fresh(game.board) && game.Valid()
      invariant Generation(game.Live(), height, width, iterations - i) == Generation(start, height, width, iterations)
    {
      game.Play();
      i := i + 1;
    }
  }

  // ----- the second program -----

  /** One round, computed on a second board and copied back. */
  method IterGame(board: array2<char>)
    requires OnlyGlyphs(board, 'O', ' ')
    modifies board
    ensures LiveCells(board, 'O') == Next(old(LiveCells(board, 'O')), board.Length0, board.Length1)
    ensures OnlyGlyphs(board, 'O', ' ')
  {
    ghost var live := LiveCells(board, 'O');
    ghost var next := Next(live, board.Length0, board.Length1);
    var newBoard := NextBoard(board);
    NextOnBoard(live, board.Length0, board.Length1);
    CopyBoard(newBoard, board);
    ShowsAll(board, 'O', ' ', next);
  }

  method CopyBoard(from: array2<char>, to: array2<char>)
    requires from != to && from.Length0 == to.Length0 && from.Length1 == to.Length1
    modifies to
    ensures forall r, c :: 0 <= r < to.Length0 && 0 <= c < to.Length1 ==> to[r, c] == from[r, c]
  {
    var i := 0;
    while i < to.Length0
      invariant 0 <= i <= to.Length0
      invariant forall r, c :: 0 <= r < i && 0 <= c < to.Length1 ==> to[r, c] == from[r, c]
    {
      var j := 0;
      while j < to.Length1
        invariant 0 <= j <= to.Length1
        invariant forall r, c :: 0 <= r < to.Length0 && 0 <= c < to.Length1 && (r < i || (r == i && c < j)) ==>
          to[r, c] == from[r, c]
      {
        to[i, j] := from[i, j];
        j := j + 1;
      }
      i := i + 1;
    }
  }

  /** The cells not reached yet are still blank. */
  ghost predicate BlankFrom(board: array2<char>, i: int, j: int)
    reads board
  {
    forall r, c :: 0 <= r < board.Length0 && 0 <= c < board.Length1 && (i < r || (i == r && j <= c)) ==>
      board[r, c] == ' '
  }

  /** A live cell is entered; any other stays blank. */
  method NextCell(newBoard: array2<char>, ghost next: set<Cell>, y: nat, x: nat, lives: bool)
    requires y < newBoard.Length0 && x < newBoard.Length1 && (lives <==> Cell(y, x) in next)
    requires ShowsUpTo(newBoard, 'O', ' ', next, y, x) && BlankFrom(newBoard, y, x)
    modifies newBoard
    ensures ShowsUpTo(newBoard, 'O', ' ', next, y, x + 1) && BlankFrom(newBoard, y, x + 1)
  {
    if lives {
      newBoard[y, x] := 'O';
    }
  }

  method LivesInPlace(board: array2<char>, y: nat, x: nat) returns (lives: bool)
    requires y < board.Length0 && x < board.Length1
    ensures lives <==> Cell(y, x) in Next(LiveCells(board, 'O'), board.Length0, board.Length1)
  {
    var count := CountNeighboors(board, y, x);
    InLiveCells(board, 'O', Cell(y, x));
    RuleIs(LiveCells(board, 'O'), board.Length0, board.Length1, y, x, count);
    lives := false;
    if board[y, x] == 'O' {
      if count == 2 || count == 3 {
        lives := true;
      }
    } else {
      if count == 3 {
        lives := true;
      }
    }
  }

  method NextBoard(board: array2<char>) returns (newBoard: array2<char>)
    ensures fresh(newBoard) && newBoard.Length0 == board.Length0 && newBoard.Length1 == board.Length1
    ensures ShowsUpTo(newBoard, 'O', ' ', Next(LiveCells(board, 'O'), board.Length0, board.Length1), board.Length0, 0)
  {
    ghost var live := LiveCells(board, 'O');
    ghost var next := Next(live, board.Length0, board.Length1);
    newBoard := new char[board.Length0, board.Length1]((_, _) => ' ');
    var y := 0;
    while y < board.Length0
      invariant 0 <= y <= board.Length0 && ShowsUpTo(newBoard, 'O', ' ', next, y, 0)
      invariant BlankFrom(newBoard, y, 0)
    {
      var x := 0;
      while x < board.Length1
        invariant 0 <= x <= board.Length1 && ShowsUpTo(newBoard, 'O', ' ', next, y, x)
        invariant BlankFrom(newBoard, y, x)
      {
        var lives := LivesInPlace(board, y, x);
        NextCell(newBoard, next, y, x, lives);
        x := x + 1;
      }
      y := y + 1;
    }
  }

  /** One command of the second program's pen, which draws in every branch. */
  method PenStep(board: array2<char>, pen: Pen, command: char) returns (p: Pen)
    requires 0 <= pen.i < board.Length0 && 0 <= pen.j < board.Length1
    requires OnlyGlyphs(board, 'O', ' ')
    modifies board
    ensures p == Moved(pen, board.Length0, board.Length1, command)
    ensures OnlyGlyphs(board, 'O', ' ')
    ensures LiveCells(board, 'O') ==
      old(LiveCells(board, 'O')) + if p.down && PenCommand(command) then {Cell(p.i, p.j)} else {}
  {
    p := pen;
    match command
    case 'w' =>
      if p.i > 0 { p := p.(i := p.i - 1); }
      if p.down { Light(board, 'O', p.i, p.j); }
    case 's' =>
      if p.i < board.Length0 - 1 { p := p.(i := p.i + 1); }
      if p.down { Light(board, 'O', p.i, p.j); }
    case 'a' =>
      if p.j > 0 { p := p.(j := p.j - 1); }
      if p.down { Light(board, 'O', p.i, p.j); }
    case 'd' =>
      if p.j < board.Length1 - 1 { p := p.(j := p.j + 1); }
      if p.down { Light(board, 'O', p.i, p.j); }
    case 'x' =>
      p := p.(down := !p.down);
      if p.down { Light(board, 'O', p.i, p.j); }
    case _ =>
  }

  /** The whole second program. It writes through the pen without looking, so the
      board has at least one cell. */
  method RunInPlace(width: nat, height: nat, iter: nat, commands: string) returns (board: array2<char>)
    requires height > 0 && width > 0
    ensures fresh(board) && board.Length0 == height && board.Length1 == width && OnlyGlyphs(board, 'O', ' ')
    ensures LiveCells(board, 'O') == Generation(Drawing(commands, height, width), height, width, iter)
  {
    board := BlankBoard(height, width, 'O');
    var pen := Pen(0, 0, false);
    var n := 0;
    assert commands[..0] == "";
    while n < |commands|
      invariant 0 <= n <= |commands| && OnlyGlyphs(board, 'O', ' ')
      invariant pen == PenAfter(commands[..n], height, width)
      invariant LiveCells(board, 'O') == Drawing(commands[..n], height, width)
    {
      DrawingGrows(commands, n, height, width);
      PenStaysOnBoard(commands[..n], height, width);
      pen := PenStep(board, pen, commands[n]);
      n := n + 1;
    }
    assert commands[..n] == commands;
    ghost var start := LiveCells(board, 'O');
    var i := 0;
    while i < iter
      invariant 0 <= i <= iter && OnlyGlyphs(board, 'O', ' ')
      invariant Generation(LiveCells(board, 'O'), height, width, iter - i) == Generation(start, height, width, iter)
    {
      IterGame(board);
      i := i + 1;
    }
  }

  /** Both programs end with the same live cells, drawn as '0' by one and as 'O', which the
      subject asks for, by the other: the final boards look the same exactly if nothing is left alive. */
  method ProgramsAgree(width: nat, height: nat, iterations: nat, commands: string)
    returns (game: Game, board: array2<char>)
    requires height > 0 && width > 0
    ensures game.board.Length0 == board.Length0 == height && game.board.Length1 == board.Length1 == width
    ensures forall i, j :: 0 <= i < height && 0 <= j < width ==>
      (game.board[i, j] == '0' <==> board[i, j] == 'O') && (game.board[i, j] == ' ' <==> board[i, j] == ' ')
    ensures
      (forall i, j :: 0 <= i < height && 0 <= j < width ==> game.board[i, j] == board[i, j]) <==>
      Generation(Drawing(commands, height, width), height, width, iterations) == {}
  {
    game := RunGame(width, height, iterations, commands);
    board := RunInPlace(width, height, iterations, commands);
    forall i, j | 0 <= i < height && 0 <= j < width
      ensures (game.board[i, j] == '0' <==> board[i, j] == 'O') && (game.board[i, j] == ' ' <==> board[i, j] == ' ')
    {
      assert game.board[i, j] == '0' || game.board[i, j] == ' ';
      assert board[i, j] == 'O' || board[i, j] == ' ';
      InLiveCells(game.board, '0', Cell(i, j));
      InLiveCells(board, 'O', Cell(i, j));
    }
    if LiveCells(board, 'O') == {} {
      forall i, j | 0 <= i < height && 0 <= j < width ensures game.board[i, j] == board[i, j] {
        InLiveCells(board, 'O', Cell(i, j));
        assert board[i, j] == 'O' || board[i, j] == ' ';
      }
    } else if c :| c in LiveCells(board, 'O') {
      InLiveCells(board, 'O', c);
      assert board[c.i, c.j] == 'O' && game.board[c.i, c.j] == '0';
    }
  }

  lemma OnePoint()
    ensures Drawing("x", 1, 1) == {Cell(0, 0)}
  {
    DrawingGrows("x", 0, 1, 1);
    assert "x"[..1] == "x" && "x"[..0] == "";
    assert Drawing("", 1, 1) == {};
  }

  /** One cell, lit and left as it is, shows the difference. */
  method ZeroForO() returns (game: Game, board: array2<char>)
    ensures game.board.Length0 == game.board.Length1 == 1 && game.board[0, 0] == '0'
    ensures board.Length0 == board.Length1 == 1 && board[0, 0] == 'O'
  {
    OnePoint();
    game := RunGame(1, 1, 0, "x");
    board := RunInPlace(1, 1, 0, "x");
    InLiveCells(game.board, '0', Cell(0, 0));
    InLiveCells(board, 'O', Cell(0, 0));
  }
}
