/** The largest-square program with a plain row-major scan
    (pracprac/practice05/level1/BSQ/bsq.c). */
module Bsq {
  import opened Squares

  /** The characters announced on the first line of a map. */
  datatype Elements = Elements(empty: char, obstacle: char, full: char) {
    /** What the first line must satisfy: three different printable characters. */
    predicate Valid() {
      && empty != obstacle && empty != full && obstacle != full
      && ' ' <= empty <= '~' && ' ' <= obstacle <= '~' && ' ' <= full <= '~'
    }
  }

  class Square {
    var size: int
    var i: int
    var j: int

    constructor ()
      ensures size == 0 && i == 0 && j == 0
    {
      size, i, j := 0, 0, 0;
    }
  }

  ghost function FreeCells(grid: array2<char>, obstacle: char): (free: set<Cell>)
    reads grid
    ensures OnBoard(free, grid.Length0, grid.Length1)
  {
    set r, c | 0 <= r < grid.Length0 && 0 <= c < grid.Length1 && grid[r, c] != obstacle :: Cell(r, c)
  }

  ghost predicate InSquare(r: int, c: int, i: int, j: int, k: int) {
    i <= r < i + k && j <= c < j + k
  }

  /** Every cell is one of the two characters. */
  ghost predicate OnlyHolds(grid: array2<char>, c1: char, c2: char)
    reads grid
  {
    forall r, c :: 0 <= r < grid.Length0 && 0 <= c < grid.Length1 ==> grid[r, c] == c1 || grid[r, c] == c2
  }

  /** The answer of the program as it is drawn: `full` on a square, the old picture elsewhere. */
  twostate predicate Drawn(grid: array2<char>, full: char, i: int, j: int, k: int)
    reads grid
  {
    forall r, c :: 0 <= r < grid.Length0 && 0 <= c < grid.Length1 ==>
      grid[r, c] == if InSquare(r, c, i, j, k) then full else old(grid[r, c])
  }

  /** Scans the map for a character that is neither of the two. */
  method ElementControl(grid: array2<char>, c1: char, c2: char) returns (ret: int)
    ensures ret == 0 || ret == -1
    ensures ret == 0 <==> OnlyHolds(grid, c1, c2)
  {
    var i := 0;
    while i < grid.Length0
      invariant 0 <= i <= grid.Length0
      invariant forall r, c :: 0 <= r < i && 0 <= c < grid.Length1 ==> grid[r, c] == c1 || grid[r, c] == c2
    {
      var j := 0;
      while j < grid.Length1
        invariant 0 <= j <= grid.Length1
        invariant forall c :: 0 <= c < j ==> grid[i, c] == c1 || grid[i, c] == c2
      {
        if grid[i, j] != c1 && grid[i, j] != c2 {
          return -1;
        }
        j := j + 1;
      }
      i := i + 1;
    }
    return 0;
  }

  method FindMin(n1: int, n2: int, n3: int) returns (min: int)
    ensures min == Min3(n1, n2, n3)
  {
    min := n1;
    if n2 < min {
      min := n2;
    }
    if n3 < min {
      min := n3;
    }
  }

  /** The table holds the recurrence for every visited cell. */
  ghost predicate Filled(matrix: array2<int>, free: set<Cell>, i: nat, j: nat)
    reads matrix
  {
    forall r, c :: 0 <= r < matrix.Length0 && 0 <= c < matrix.Length1 && (r < i || (r == i && c < j)) ==>
      matrix[r, c] == EndSide(free, r, c)
  }

  /** The square ends at the cell (bi, bj), or is still the empty one it started as. */
  ghost predicate Places(square: Square, bi: int, bj: int)
    reads square
  {
    if square.size == 0 then square.i == 0 && square.j == 0
    else square.i == bi - square.size + 1 && square.j == bj - square.size + 1
  }

  /** The body of the double loop: one table entry, then the running best. */
  method VisitCell(grid: array2<char>, matrix: array2<int>, ghost free: set<Cell>, square: Square, i: nat, j: nat,
                   elements: Elements, ghost bi: int, ghost bj: int)
    returns (ghost bi': int, ghost bj': int)
    requires matrix.Length0 == grid.Length0 && matrix.Length1 == grid.Length1
    requires i < grid.Length0 && j < grid.Length1
    requires free == FreeCells(grid, elements.obstacle) && Filled(matrix, free, i, j)
    requires FirstBest(free, RowMajor, grid.Length0, grid.Length1, Key(2, i, j), bi, bj, square.size)
    requires Places(square, bi, bj)
    modifies matrix, square
    ensures Filled(matrix, free, i, j + 1)
    ensures FirstBest(free, RowMajor, grid.Length0, grid.Length1, Key(2, i, j + 1), bi', bj', square.size)
    ensures Places(square, bi', bj')
  {
    bi', bj' := bi, bj;
    if grid[i, j] == elements.obstacle {
      matrix[i, j] := 0;
    } else if i == 0 || j == 0 {
      matrix[i, j] := 1;
    } else {
      var min := FindMin(matrix[i - 1, j], matrix[i - 1, j - 1], matrix[i, j - 1]);
      matrix[i, j] := min + 1;
    }
    RowMajorAdvance(free, grid.Length0, grid.Length1, i, j, bi, bj, square.size);
    if matrix[i, j] > square.size {
      square.size := matrix[i, j];
      square.i := i - matrix[i, j] + 1;
      square.j := j - matrix[i, j] + 1;
      bi', bj' := i, j;
    }
  }

  /** The dynamic-programming search. The caller hands in a square that is still empty. */
  method FindBigSquare(grid: array2<char>, square: Square, elements: Elements)
    requires square.size == 0 && square.i == 0 && square.j == 0
    modifies square
    ensures TopmostBiggest(FreeCells(grid, elements.obstacle), square.i, square.j, square.size)
    ensures square.size == 0 ==> square.i == 0 && square.j == 0
  {
    ghost var free := FreeCells(grid, elements.obstacle);
    var height, width := grid.Length0, grid.Length1;
    ghost var bi, bj := 0, 0;
    var matrix := new int[height, width]((_, _) => 0);
    var i := 0;
    while i < height
      invariant 0 <= i <= height
      invariant Filled(matrix, free, i, 0)
      invariant FirstBest(free, RowMajor, height, width, Key(2, i, 0), bi, bj, square.size)
      invariant Places(square, bi, bj)
    {
      var j := 0;
      while j < width
        invariant 0 <= j <= width
        invariant Filled(matrix, free, i, j)
        invariant FirstBest(free, RowMajor, height, width, Key(2, i, j), bi, bj, square.size)
        invariant Places(square, bi, bj)
      {
        bi, bj := VisitCell(grid, matrix, free, square, i, j, elements, bi, bj);
        j := j + 1;
      }
      RowMajorNextRow(free, height, width, i, bi, bj, square.size);
      i := i + 1;
    }
    RowMajorScanFindsTopmost(free, height, width, bi, bj, square.size);
    if square.size == 0 {
      assert Biggest(free, bi - 0 + 1, bj - 0 + 1, 0);
    }
  }

  /** Visiting one more cell keeps the running best. */
  lemma RowMajorAdvance(free: set<Cell>, h: nat, w: nat, i: nat, j: nat, bi: int, bj: int, k: int)
    requires i < h && j < w && FirstBest(free, RowMajor, h, w, Key(2, i, j), bi, bj, k)
    ensures FirstBest(free, RowMajor, h, w, Key(2, i, j + 1),
                      if EndSide(free, i, j) > k then i else bi,
                      if EndSide(free, i, j) > k then j else bj,
                      if EndSide(free, i, j) > k then EndSide(free, i, j) else k)
  {
    assert forall r, c :: Seen(RowMajor, h, w, r, c, Key(2, i, j + 1)) ==>
      Seen(RowMajor, h, w, r, c, Key(2, i, j)) || (r == i && c == j);
  }

  /** The end of a row is the start of the next one. */
  lemma RowMajorNextRow(free: set<Cell>, h: nat, w: nat, i: nat, bi: int, bj: int, k: int)
    requires FirstBest(free, RowMajor, h, w, Key(2, i, w), bi, bj, k)
    ensures FirstBest(free, RowMajor, h, w, Key(2, i + 1, 0), bi, bj, k)
  {
    assert forall r, c :: Seen(RowMajor, h, w, r, c, Key(2, i + 1, 0)) ==> Seen(RowMajor, h, w, r, c, Key(2, i, w));
  }

  /** Draws the square; the guards of the source keep it on the map. */
  method PrintFilledSquare(grid: array2<char>, square: Square, elements: Elements)
    requires 0 <= square.i && 0 <= square.j
    modifies grid
    ensures Drawn(grid, elements.full, square.i, square.j, square.size)
  {
    var i := square.i;
    while i < square.i + square.size
      invariant square.i <= i && (i <= square.i + square.size || i == square.i)
      invariant forall r, c :: 0 <= r < grid.Length0 && 0 <= c < grid.Length1 ==>
        grid[r, c] ==
          if r < i && InSquare(r, c, square.i, square.j, square.size) then elements.full else old(grid[r, c])
    {
      var j := square.j;
      while j < square.j + square.size
        invariant square.j <= j <= square.j + square.size
        invariant forall r, c :: 0 <= r < grid.Length0 && 0 <= c < grid.Length1 ==>
          grid[r, c] == if (r < i || (r == i && c < j)) && InSquare(r, c, square.i, square.j, square.size)
                        then elements.full else old(grid[r, c])
      {
        if i < grid.Length0 && j < grid.Length1 {
          grid[i, j] := elements.full;
        }
        j := j + 1;
      }
      i := i + 1;
    }
  }

  /** One map, from the loaded grid to the drawn answer. */
  method ExecuteBsq(grid: array2<char>, elements: Elements) returns (ret: int, square: Square)
    modifies grid
    ensures fresh(square)
    ensures ret == if old(OnlyHolds(grid, elements.empty, elements.obstacle)) then 0 else -1
    ensures ret == -1 ==>
      forall r, c :: 0 <= r < grid.Length0 && 0 <= c < grid.Length1 ==> grid[r, c] == old(grid[r, c])
    ensures ret == 0 ==>
      && TopmostBiggest(old(FreeCells(grid, elements.obstacle)), square.i, square.j, square.size)
      && Drawn(grid, elements.full, square.i, square.j, square.size)
  {
    square := new Square();
    ret := ElementControl(grid, elements.empty, elements.obstacle);
    if ret == -1 {
      return;
    }
    FindBigSquare(grid, square, elements);
    ghost var free := FreeCells(grid, elements.obstacle);
    FreeSquareOnBoard(free, grid.Length0, grid.Length1, square.i, square.j, square.size);
    PrintFilledSquare(grid, square, elements);
  }

  lemma FreeSquareOnBoard(free: set<Cell>, h: nat, w: nat, i: int, j: int, k: int)
    requires OnBoard(free, h, w) && FreeSquare(free, i, j, k)
    ensures 0 < k ==> 0 <= i && 0 <= j && i + k <= h && j + k <= w
  {
    if 0 < k {
      assert Cell(i, j) in free && Cell(i + k - 1, j + k - 1) in free;
    }
  }
}
