/** Obstacle-free squares of a board, and the order in which a scan meets them.
    A board is given by the finite set of its free cells; everything the two
    square searches compute is stated about that set. */
module Squares {

  datatype Cell = Cell(i: int, j: int)

  /** All free cells lie on a board of `h` rows and `w` columns. */
  ghost predicate OnBoard(free: set<Cell>, h: nat, w: nat) {
    forall c :: c in free ==> 0 <= c.i < h && 0 <= c.j < w
  }

  /** The `k` by `k` square whose top-left corner is (i, j) holds no obstacle. */
  ghost predicate FreeSquare(free: set<Cell>, i: int, j: int, k: int) {
    forall r, c :: i <= r < i + k && j <= c < j + k ==> Cell(r, c) in free
  }

  /** A free square of side `k` at (i, j), and no free square has a larger side. */
  ghost predicate Biggest(free: set<Cell>, i: int, j: int, k: int) {
    && 0 <= k
    && FreeSquare(free, i, j, k)
    && forall i', j', k' :: k < k' ==> !FreeSquare(free, i', j', k')
  }

  /** The answer the subject asks for: a biggest square, the topmost one, then the leftmost. */
  ghost predicate TopmostBiggest(free: set<Cell>, i: int, j: int, k: int) {
    && Biggest(free, i, j, k)
    && (0 < k ==> forall i', j' :: FreeSquare(free, i', j', k) ==> i < i' || (i == i' && j <= j'))
  }

  function Min3(a: int, b: int, c: int): int {
    if a <= b && a <= c then a else if b <= c then b else c
  }

  /** The recurrence both tables are filled with. */
  ghost function EndSide(free: set<Cell>, i: nat, j: nat): nat
    decreases i + j
  {
    if Cell(i, j) !in free then 0
    else if i == 0 || j == 0 then 1
    else 1 + Min3(EndSide(free, i - 1, j), EndSide(free, i - 1, j - 1), EndSide(free, i, j - 1))
  }

  /** The recurrence is right: a square of side `k` ending at (i, j) is free
      exactly when `k` is at most the table's value. */
  lemma {:induction false} EndSideIsLargest(free: set<Cell>, i: nat, j: nat, k: nat)
    requires forall c :: c in free ==> 0 <= c.i && 0 <= c.j
    ensures FreeSquare(free, i - k + 1, j - k + 1, k) <==> k <= EndSide(free, i, j)
    decreases i + j
  {
    if k == 0 {
    } else if Cell(i, j) !in free {
    } else if i == 0 || j == 0 {
      if k > 1 {
        assert Cell(i - k + 1, j - k + 1) !in free;
      }
    } else {
      EndSideIsLargest(free, i - 1, j, k - 1);
      EndSideIsLargest(free, i - 1, j - 1, k - 1);
      EndSideIsLargest(free, i, j - 1, k - 1);
      SquareFromThree(free, i, j, k);
    }
  }

  /** A square is free when its last cell is and so are the three squares one smaller
      that end above that cell, diagonally before it, and to its left. */
  lemma SquareFromThree(free: set<Cell>, i: int, j: int, k: int)
    requires k >= 1
    ensures FreeSquare(free, i - k + 1, j - k + 1, k) <==>
              && Cell(i, j) in free
              && FreeSquare(free, i - k + 1, j - k + 2, k - 1)
              && FreeSquare(free, i - k + 1, j - k + 1, k - 1)
              && FreeSquare(free, i - k + 2, j - k + 1, k - 1)
  {
  }

  lemma EndSideWithinBorder(free: set<Cell>, i: nat, j: nat)
    ensures EndSide(free, i, j) <= i + 1 && EndSide(free, i, j) <= j + 1
    decreases i + j
  {
  }

  // ----- scans -----

  /** The two visiting orders: plain row-major, and first column, then first row, then the rest. */
  datatype Order = RowMajor | ColumnFirst

  /** Position of a cell, or of a loop between two cells, in a visiting order. */
  datatype Key = Key(phase: int, major: int, minor: int)

  function KeyOf(o: Order, i: int, j: int): Key {
    match o
    case RowMajor => Key(2, i, j)
    case ColumnFirst => if j == 0 then Key(0, i, 0) else if i == 0 then Key(1, 0, j) else Key(2, i, j)
  }

  predicate Before(a: Key, b: Key) {
    || a.phase < b.phase
    || (a.phase == b.phase && (a.major < b.major || (a.major == b.major && a.minor < b.minor)))
  }

  ghost predicate Seen(o: Order, h: nat, w: nat, i: int, j: int, upto: Key) {
    0 <= i < h && 0 <= j < w && Before(KeyOf(o, i, j), upto)
  }

  /** What the running best holds once every cell before `upto` was visited: the
      largest table value so far, at the first cell (i, j) that reached it. */
  ghost predicate FirstBest(free: set<Cell>, o: Order, h: nat, w: nat, upto: Key, i: int, j: int, k: int) {
    && 0 <= k
    && (forall r, c :: Seen(o, h, w, r, c, upto) ==> EndSide(free, r, c) <= k)
    && (0 < k ==>
          && Seen(o, h, w, i, j, upto)
          && EndSide(free, i, j) == k
          && forall r, c :: Seen(o, h, w, r, c, KeyOf(o, i, j)) ==> EndSide(free, r, c) < k)
  }

  /** `upto` is past every cell of the board. */
  ghost predicate AllSeen(o: Order, h: nat, w: nat, upto: Key) {
    forall i, j :: 0 <= i < h && 0 <= j < w ==> Before(KeyOf(o, i, j), upto)
  }

  /** A complete scan in either order ends on a biggest square. */
  lemma ScanFindsBiggest(free: set<Cell>, o: Order, h: nat, w: nat, upto: Key, i: int, j: int, k: int)
    requires OnBoard(free, h, w) && AllSeen(o, h, w, upto)
    requires FirstBest(free, o, h, w, upto, i, j, k)
    ensures Biggest(free, i - k + 1, j - k + 1, k)
  {
    forall i', j', k' | k < k' ensures !FreeSquare(free, i', j', k') {
      if FreeSquare(free, i', j', k') {
        var r, c := i' + k' - 1, j' + k' - 1;
        assert Cell(r, c) in free;
        assert Seen(o, h, w, r, c, upto);
        EndSideIsLargest(free, r, c, k');
      }
    }
    if 0 < k {
      EndSideIsLargest(free, i, j, k);
    }
  }

  /** A complete row-major scan ends on the topmost, then leftmost, biggest square. */
  lemma RowMajorScanFindsTopmost(free: set<Cell>, h: nat, w: nat, i: int, j: int, k: int)
    requires OnBoard(free, h, w)
    requires FirstBest(free, RowMajor, h, w, Key(2, h, 0), i, j, k)
    ensures TopmostBiggest(free, i - k + 1, j - k + 1, k)
  {
    ScanFindsBiggest(free, RowMajor, h, w, Key(2, h, 0), i, j, k);
    if 0 < k {
      forall i', j' | FreeSquare(free, i', j', k)
        ensures i - k + 1 < i' || (i - k + 1 == i' && j - k + 1 <= j')
      {
        var r, c := i' + k - 1, j' + k - 1;
        assert Cell(r, c) in free;
        EndSideIsLargest(free, r, c, k);
        assert !Seen(RowMajor, h, w, r, c, KeyOf(RowMajor, i, j));
      }
    }
  }

  /** The subject's answer is unique, up to the place of an empty square. */
  lemma TopmostBiggestIsUnique(free: set<Cell>, i: int, j: int, k: int, i': int, j': int, k': int)
    requires TopmostBiggest(free, i, j, k) && TopmostBiggest(free, i', j', k')
    ensures k == k' && (0 < k ==> i == i' && j == j')
  {
  }
}
