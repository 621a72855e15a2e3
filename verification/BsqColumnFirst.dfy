/** The largest-square program that scans the first column, then the first row,
    then the rest (pracprac/drPractice/lvl_01/00_subject/bsq/bsq.c), and how its
    answer compares with the row-major one. */
module BsqColumnFirst {
  import opened Squares
  import opened Bsq

  /** This program tests cells against the empty character, not against the obstacle. */
  ghost function EmptyCells(grid: array2<char>, empty: char): (free: set<Cell>)
    reads grid
    ensures OnBoard(free, grid.Length0, grid.Length1)
  {
    set r, c | 0 <= r < grid.Length0 && 0 <= c < grid.Length1 && grid[r, c] == empty :: Cell(r, c)
  }

  /** On a map that holds only the two announced characters both tests see the same cells. */
  lemma SameFreeCells(grid: array2<char>, elements: Elements)
    requires elements.Valid() && OnlyHolds(grid, elements.empty, elements.obstacle)
    ensures EmptyCells(grid, elements.empty) == FreeCells(grid, elements.obstacle)
  {
    assert forall c :: c in EmptyCells(grid, elements.empty) <==> c in FreeCells(grid, elements.obstacle);
  }

  /** The square with top-left corner (i, j) that the column-first scan settles on. */
  ghost predicate ColumnFirstPick(free: set<Cell>, h: nat, w: nat, i: int, j: int, k: int) {
    FirstBest(free, ColumnFirst, h, w, Key(2, h, 0), i + k - 1, j + k - 1, k)
  }

  /** The table and the running best once every cell before `upto` was visited:
      entries of visited cells are final, the others still hold the zero they
      were allocated with, and (mi, mj) is where the best side `ms` was first met. */
  ghost predicate Scanned(dp: array2<int>, free: set<Cell>, upto: Key, mi: int, mj: int, ms: int)
    reads dp
  {
    && FirstBest(free, ColumnFirst, dp.Length0, dp.Length1, upto, mi, mj, ms)
    && (ms == 0 ==> mi == 0 && mj == 0)
    && forall r, c :: 0 <= r < dp.Length0 && 0 <= c < dp.Length1 ==>
         dp[r, c] == if Seen(ColumnFirst, dp.Length0, dp.Length1, r, c, upto) then EndSide(free, r, c) else 0
  }

  /** The loop position `next` is just past the cell (i, j) at position `at`. */
  ghost predicate Steps(h: nat, w: nat, at: Key, next: Key, i: int, j: int) {
    forall r, c :: 0 <= r < h && 0 <= c < w ==>
      (Before(KeyOf(ColumnFirst, r, c), next) <==> Before(KeyOf(ColumnFirst, r, c), at) || (r == i && c == j))
  }

  /** No cell lies between the two loop positions. */
  ghost predicate SamePlace(h: nat, w: nat, at: Key, next: Key) {
    forall r, c :: 0 <= r < h && 0 <= c < w ==>
      (Before(KeyOf(ColumnFirst, r, c), next) <==> Before(KeyOf(ColumnFirst, r, c), at))
  }

  lemma MoveOn(dp: array2<int>, free: set<Cell>, at: Key, next: Key, mi: int, mj: int, ms: int)
    requires SamePlace(dp.Length0, dp.Length1, at, next) && Scanned(dp, free, at, mi, mj, ms)
    ensures Scanned(dp, free, next, mi, mj, ms)
  {
    assert forall r, c :: Seen(ColumnFirst, dp.Length0, dp.Length1, r, c, next) ==>
      Seen(ColumnFirst, dp.Length0, dp.Length1, r, c, at);
  }

  /** The step all three loops share: store the table entry of a cell, then
      keep the best side and the first cell that reached it. */
  method Record(dp: array2<int>, ghost free: set<Cell>, ghost at: Key, ghost next: Key, i: nat, j: nat, value: int,
                mi: int, mj: int, ms: int)
    returns (maxI: int, maxJ: int, maxSize: int)
    requires i < dp.Length0 && j < dp.Length1 && value == EndSide(free, i, j)
    requires !Before(at, KeyOf(ColumnFirst, i, j)) && Steps(dp.Length0, dp.Length1, at, next, i, j)
    requires Scanned(dp, free, at, mi, mj, ms)
    modifies dp
    ensures Scanned(dp, free, next, maxI, maxJ, maxSize)
  {
    maxI, maxJ, maxSize := mi, mj, ms;
    dp[i, j] := value;
    assert forall r, c :: Seen(ColumnFirst, dp.Length0, dp.Length1, r, c, next) ==>
      Seen(ColumnFirst, dp.Length0, dp.Length1, r, c, at) || (r == i && c == j);
    if dp[i, j] > maxSize {
      maxSize := dp[i, j];
      maxI := i;
      maxJ := j;
    }
  }

  /** The first loop: column 0 from top to bottom. */
  method ScanFirstColumn(grid: array2<char>, dp: array2<int>, elements: Elements, ghost free: set<Cell>)
    returns (maxI: int, maxJ: int, maxSize: int)
    requires 0 < grid.Length0 && 0 < grid.Length1
    requires dp.Length0 == grid.Length0 && dp.Length1 == grid.Length1
    requires free == EmptyCells(grid, elements.empty) && Scanned(dp, free, Key(0, 0, 0), 0, 0, 0)
    modifies dp
    ensures Scanned(dp, free, Key(1, 0, 0), maxI, maxJ, maxSize)
  {
    maxI, maxJ, maxSize := 0, 0, 0;
    var i := 0;
    while i < grid.Length0
      invariant 0 <= i <= grid.Length0
      invariant Scanned(dp, free, Key(0, i, 0), maxI, maxJ, maxSize)
    {
      maxI, maxJ, maxSize := Record(dp, free, Key(0, i, 0), Key(0, i + 1, 0), i, 0,
                                       if grid[i, 0] == elements.empty then 1 else 0, maxI, maxJ, maxSize);
      i := i + 1;
    }
    MoveOn(dp, free, Key(0, i, 0), Key(1, 0, 0), maxI, maxJ, maxSize);
  }

  /** The second loop: row 0 from left to right. It visits the corner once more,
      which changes neither the table nor the best. */
  method ScanFirstRow(grid: array2<char>, dp: array2<int>, elements: Elements, ghost free: set<Cell>,
                      mi: int, mj: int, ms: int)
    returns (maxI: int, maxJ: int, maxSize: int)
    requires 0 < grid.Length0 && 0 < grid.Length1
    requires dp.Length0 == grid.Length0 && dp.Length1 == grid.Length1
    requires free == EmptyCells(grid, elements.empty) && Scanned(dp, free, Key(1, 0, 0), mi, mj, ms)
    modifies dp
    ensures Scanned(dp, free, Key(2, 1, 1), maxI, maxJ, maxSize)
  {
    maxI, maxJ, maxSize := mi, mj, ms;
    var j := 0;
    while j < grid.Length1
      invariant 0 <= j <= grid.Length1
      invariant Scanned(dp, free, Key(1, 0, j), maxI, maxJ, maxSize)
    {
      maxI, maxJ, maxSize := Record(dp, free, Key(1, 0, j), Key(1, 0, j + 1), 0, j,
                                       if grid[0, j] == elements.empty then 1 else 0, maxI, maxJ, maxSize);
      j := j + 1;
    }
    MoveOn(dp, free, Key(1, 0, j), Key(2, 1, 1), maxI, maxJ, maxSize);
  }

  /** The body of the third, double loop. */
  method VisitInterior(grid: array2<char>, dp: array2<int>, elements: Elements, ghost free: set<Cell>, i: nat, j: nat,
                       mi: int, mj: int, ms: int)
    returns (maxI: int, maxJ: int, maxSize: int)
    requires dp.Length0 == grid.Length0 && dp.Length1 == grid.Length1
    requires 1 <= i < grid.Length0 && 1 <= j < grid.Length1
    requires free == EmptyCells(grid, elements.empty) && Scanned(dp, free, Key(2, i, j), mi, mj, ms)
    modifies dp
    ensures Scanned(dp, free, Key(2, i, j + 1), maxI, maxJ, maxSize)
  {
    maxI, maxJ, maxSize := mi, mj, ms;
    InteriorSteps(dp.Length0, dp.Length1, i, j);
    if grid[i, j] == elements.empty {
      NeighboursReady(dp, free, i, j, mi, mj, ms);
      var min := FindMin(dp[i - 1, j], dp[i, j - 1], dp[i - 1, j - 1]);
      maxI, maxJ, maxSize := Record(dp, free, Key(2, i, j), Key(2, i, j + 1), i, j, 1 + min, mi, mj, ms);
    } else {
      SkipCell(dp, free, Key(2, i, j), Key(2, i, j + 1), i, j, mi, mj, ms);
    }
  }

  lemma InteriorSteps(h: nat, w: nat, i: nat, j: nat)
    requires 1 <= i < h && 1 <= j < w
    ensures Steps(h, w, Key(2, i, j), Key(2, i, j + 1), i, j)
    ensures !Before(Key(2, i, j), KeyOf(ColumnFirst, i, j))
  {
  }

  lemma NeighboursReady(dp: array2<int>, free: set<Cell>, i: nat, j: nat, mi: int, mj: int, ms: int)
    requires 1 <= i < dp.Length0 && 1 <= j < dp.Length1
    requires Scanned(dp, free, Key(2, i, j), mi, mj, ms)
    ensures dp[i - 1, j] == EndSide(free, i - 1, j)
    ensures dp[i, j - 1] == EndSide(free, i, j - 1)
    ensures dp[i - 1, j - 1] == EndSide(free, i - 1, j - 1)
  {
  }

  /** An occupied cell keeps the zero its entry was allocated with. */
  lemma SkipCell(dp: array2<int>, free: set<Cell>, at: Key, next: Key, i: nat, j: nat, mi: int, mj: int, ms: int)
    requires i < dp.Length0 && j < dp.Length1 && Cell(i, j) !in free
    requires Steps(dp.Length0, dp.Length1, at, next, i, j) && Scanned(dp, free, at, mi, mj, ms)
    ensures Scanned(dp, free, next, mi, mj, ms)
  {
    assert forall r, c :: Seen(ColumnFirst, dp.Length0, dp.Length1, r, c, next) ==>
      Seen(ColumnFirst, dp.Length0, dp.Length1, r, c, at) || (r == i && c == j);
  }

  lemma NextRow(dp: array2<int>, free: set<Cell>, i: nat, j: nat, mi: int, mj: int, ms: int)
    requires 1 <= i && 1 <= j && dp.Length1 <= j && Scanned(dp, free, Key(2, i, j), mi, mj, ms)
    ensures Scanned(dp, free, Key(2, i + 1, 1), mi, mj, ms)
  {
    MoveOn(dp, free, Key(2, i, j), Key(2, i + 1, 1), mi, mj, ms);
  }

  /** The third, double loop: everything that is neither in row 0 nor in column 0. */
  method ScanInterior(grid: array2<char>, dp: array2<int>, elements: Elements, ghost free: set<Cell>,
                      mi: int, mj: int, ms: int)
    returns (maxI: int, maxJ: int, maxSize: int)
    requires 0 < grid.Length0 && 0 < grid.Length1
    requires dp.Length0 == grid.Length0 && dp.Length1 == grid.Length1
    requires free == EmptyCells(grid, elements.empty) && Scanned(dp, free, Key(2, 1, 1), mi, mj, ms)
    modifies dp
    ensures ColumnFirstPick(free, grid.Length0, grid.Length1, maxI - maxSize + 1, maxJ - maxSize + 1, maxSize)
  {
    maxI, maxJ, maxSize := mi, mj, ms;
    var i := 1;
    while i < grid.Length0
      invariant 1 <= i <= grid.Length0
      invariant Scanned(dp, free, Key(2, i, 1), maxI, maxJ, maxSize)
    {
      var j := 1;
      while j < grid.Length1
        invariant 1 <= j <= grid.Length1
        invariant Scanned(dp, free, Key(2, i, j), maxI, maxJ, maxSize)
      {
        maxI, maxJ, maxSize := VisitInterior(grid, dp, elements, free, i, j, maxI, maxJ, maxSize);
        j := j + 1;
      }
      NextRow(dp, free, i, j, maxI, maxJ, maxSize);
      i := i + 1;
    }
    MoveOn(dp, free, Key(2, i, 1), Key(2, grid.Length0, 0), maxI, maxJ, maxSize);
  }

  /** The search and the drawing. The source reads row 0 and column 0 without
      asking, so the map has at least one cell. */
  method FindBiggestSquare(grid: array2<char>, elements: Elements)
    returns (ghost i0: int, ghost j0: int, ghost k0: int)
    requires 0 < grid.Length0 && 0 < grid.Length1
    modifies grid
    ensures ColumnFirstPick(old(EmptyCells(grid, elements.empty)), grid.Length0, grid.Length1, i0, j0, k0)
    ensures Drawn(grid, elements.full, i0, j0, k0)
  {
    ghost var free := EmptyCells(grid, elements.empty);
    var dp := new int[grid.Length0, grid.Length1]((_, _) => 0);
    var maxI, maxJ, maxSize := ScanFirstColumn(grid, dp, elements, free);
    maxI, maxJ, maxSize := ScanFirstRow(grid, dp, elements, free, maxI, maxJ, maxSize);
    maxI, maxJ, maxSize := ScanInterior(grid, dp, elements, free, maxI, maxJ, maxSize);
    i0, j0, k0 := maxI - maxSize + 1, maxJ - maxSize + 1, maxSize;
    PickIsBiggest(free, grid.Length0, grid.Length1, i0, j0, k0);
    FillSquare(grid, elements, maxI, maxJ, maxSize, free);
  }

  /** The drawing loops, driven by the bottom-right corner. */
  method FillSquare(grid: array2<char>, elements: Elements, maxI: int, maxJ: int, maxSize: int, ghost free: set<Cell>)
    requires OnBoard(free, grid.Length0, grid.Length1)
    requires FreeSquare(free, maxI - maxSize + 1, maxJ - maxSize + 1, maxSize)
    modifies grid
    ensures Drawn(grid, elements.full, maxI - maxSize + 1, maxJ - maxSize + 1, maxSize)
  {
    FreeSquareOnBoard(free, grid.Length0, grid.Length1, maxI - maxSize + 1, maxJ - maxSize + 1, maxSize);
    ghost var i0, j0 := maxI - maxSize + 1, maxJ - maxSize + 1;
    var i := maxI - maxSize + 1;
    while i <= maxI && i < grid.Length0
      invariant i0 <= i
      invariant forall r, c :: 0 <= r < grid.Length0 && 0 <= c < grid.Length1 ==>
        grid[r, c] == if r < i && InSquare(r, c, i0, j0, maxSize) then elements.full else old(grid[r, c])
    {
      var j := maxJ - maxSize + 1;
      while j <= maxJ && j < grid.Length1
        invariant j0 <= j
        invariant forall r, c :: 0 <= r < grid.Length0 && 0 <= c < grid.Length1 ==>
          grid[r, c] == if (r < i || (r == i && c < j)) && InSquare(r, c, i0, j0, maxSize)
                        then elements.full else old(grid[r, c])
      {
        grid[i, j] := elements.full;
        j := j + 1;
      }
      i := i + 1;
    }
  }

  // ----- comparison with the row-major program -----

  /** The column-first program always finds a square of the biggest side. */
  lemma PickIsBiggest(free: set<Cell>, h: nat, w: nat, i: int, j: int, k: int)
    requires OnBoard(free, h, w) && ColumnFirstPick(free, h, w, i, j, k)
    ensures Biggest(free, i, j, k)
  {
    ScanFindsBiggest(free, ColumnFirst, h, w, Key(2, h, 0), i + k - 1, j + k - 1, k);
  }

  /** From side 2 on, both programs find the same square. */
  lemma SameSquareFromSideTwo(free: set<Cell>, h: nat, w: nat, i: int, j: int, k: int, i': int, j': int, k': int)
    requires OnBoard(free, h, w)
    requires ColumnFirstPick(free, h, w, i, j, k) && TopmostBiggest(free, i', j', k')
    requires 2 <= k || 2 <= k'
    ensures k == k' && i == i' && j == j'
  {
    PickIsBiggest(free, h, w, i, j, k);
    var r, c := i' + k - 1, j' + k - 1;
    assert Cell(r, c) in free;
    EndSideIsLargest(free, r, c, k);
    EndSideWithinBorder(free, r, c);
    EndSideWithinBorder(free, i + k - 1, j + k - 1);
    assert !Seen(ColumnFirst, h, w, r, c, KeyOf(ColumnFirst, i + k - 1, j + k - 1));
  }

  /** The maps on which the column-first program answers wrongly: no two-by-two
      square is free, and some free cell lies above the first free cell of column 0. */
  ghost predicate ColumnMisleads(free: set<Cell>) {
    && (forall i, j :: !FreeSquare(free, i, j, 2))
    && exists r :: Cell(r, 0) in free && (forall r' :: r' < r ==> Cell(r', 0) !in free) &&
         exists a :: a in free && a.i < r
  }

  /** The column-first program meets the subject's tie rule exactly on the other maps. */
  lemma ColumnFirstIsTopmostIff(free: set<Cell>, h: nat, w: nat, i: int, j: int, k: int)
    requires OnBoard(free, h, w) && ColumnFirstPick(free, h, w, i, j, k)
    ensures TopmostBiggest(free, i, j, k) <==> !ColumnMisleads(free)
  {
    PickIsBiggest(free, h, w, i, j, k);
    if 2 <= k {
      forall i', j' | FreeSquare(free, i', j', k) ensures i < i' || (i == i' && j <= j') {
        var r, c := i' + k - 1, j' + k - 1;
        assert Cell(r, c) in free;
        EndSideIsLargest(free, r, c, k);
        EndSideWithinBorder(free, r, c);
        EndSideWithinBorder(free, i + k - 1, j + k - 1);
        assert !Seen(ColumnFirst, h, w, r, c, KeyOf(ColumnFirst, i + k - 1, j + k - 1));
      }
      assert FreeSquare(free, i, j, 2);
    } else if k == 1 {
      assert Cell(i, j) in free;
      SideOneIsTopmostIff(free, h, w, i, j);
    } else {
      forall a | a in free ensures FreeSquare(free, a.i, a.j, 1) {
        assert Cell(a.i, a.j) == a;
      }
    }
  }

  /** At side 1 the pick is the first free cell in visiting order. */
  lemma SideOnePicksFirst(free: set<Cell>, h: nat, w: nat, i: int, j: int, a: Cell)
    requires OnBoard(free, h, w) && ColumnFirstPick(free, h, w, i, j, 1) && a in free
    ensures !Before(KeyOf(ColumnFirst, a.i, a.j), KeyOf(ColumnFirst, i, j))
  {
    assert Cell(a.i, a.j) == a;
    EndSideIsLargest(free, a.i, a.j, 1);
    assert FreeSquare(free, a.i, a.j, 1);
    assert !Seen(ColumnFirst, h, w, a.i, a.j, KeyOf(ColumnFirst, i, j));
  }

  lemma SideOneIsTopmostIff(free: set<Cell>, h: nat, w: nat, i: int, j: int)
    requires OnBoard(free, h, w) && ColumnFirstPick(free, h, w, i, j, 1) && Biggest(free, i, j, 1)
    ensures TopmostBiggest(free, i, j, 1) <==> !ColumnMisleads(free)
  {
    assert Cell(i, j) in free;
    forall a | a in free ensures !Before(KeyOf(ColumnFirst, a.i, a.j), KeyOf(ColumnFirst, i, j)) {
      SideOnePicksFirst(free, h, w, i, j, a);
    }
    if ColumnMisleads(free) {
      var r :| Cell(r, 0) in free && (forall r' :: r' < r ==> Cell(r', 0) !in free) && exists a :: a in free && a.i < r;
      var a :| a in free && a.i < r;
      assert i == r && j == 0;
      assert FreeSquare(free, a.i, a.j, 1);
    } else {
      forall i', j' | FreeSquare(free, i', j', 1) ensures i < i' || (i == i' && j <= j') {
        var a := Cell(i', j');
        assert a in free;
        if j == 0 {
          assert forall r' :: r' < i ==> Cell(r', 0) !in free;
          assert forall x, y :: !FreeSquare(free, x, y, 2);
        }
      }
    }
  }

  /** Both programs draw the same picture on a valid map exactly when the map does not mislead. */
  lemma PicturesAgreeIff(free: set<Cell>, h: nat, w: nat, i: int, j: int, k: int, i': int, j': int, k': int)
    requires OnBoard(free, h, w)
    requires ColumnFirstPick(free, h, w, i, j, k) && TopmostBiggest(free, i', j', k')
    ensures (forall r, c :: InSquare(r, c, i, j, k) <==> InSquare(r, c, i', j', k')) <==> !ColumnMisleads(free)
  {
    PickIsBiggest(free, h, w, i, j, k);
    ColumnFirstIsTopmostIff(free, h, w, i, j, k);
    if 0 < k && (forall r, c :: InSquare(r, c, i, j, k) <==> InSquare(r, c, i', j', k')) {
      assert InSquare(i, j, i, j, k) && InSquare(i', j', i', j', k');
    }
  }

  /** At every size both programs find the same side. */
  lemma SameSide(free: set<Cell>, h: nat, w: nat, i: int, j: int, k: int, i': int, j': int, k': int)
    requires OnBoard(free, h, w)
    requires ColumnFirstPick(free, h, w, i, j, k) && TopmostBiggest(free, i', j', k')
    ensures k == k'
  {
    PickIsBiggest(free, h, w, i, j, k);
  }

  ghost predicate SamePicture(a: array2<char>, b: array2<char>)
    requires a.Length0 == b.Length0 && a.Length1 == b.Length1
    reads a, b
  {
    forall r, c :: 0 <= r < a.Length0 && 0 <= c < a.Length1 ==> a[r, c] == b[r, c]
  }

  /** Both programs on two copies of one valid map: the same side, and the same picture
      exactly when the map does not mislead the column-first one. */
  method DrawBoth(one: array2<char>, two: array2<char>, elements: Elements)
    returns (square: Square, ghost side: int)
    requires elements.Valid() && OnlyHolds(one, elements.empty, elements.obstacle)
    requires one != two && one.Length0 == two.Length0 > 0 && one.Length1 == two.Length1 > 0 && SamePicture(one, two)
    modifies one, two
    ensures square.size == side && TopmostBiggest(old(FreeCells(one, elements.obstacle)), square.i, square.j, side)
    ensures SamePicture(one, two) <==> !ColumnMisleads(old(FreeCells(one, elements.obstacle)))
  {
    ghost var free := FreeCells(one, elements.obstacle);
    SameFreeCells(two, elements);
    assert EmptyCells(two, elements.empty) == free by {
      assert forall c :: c in FreeCells(two, elements.obstacle) <==> c in free;
    }
    var _, found := ExecuteBsq(one, elements);
    square := found;
    ghost var i, j, k := FindBiggestSquare(two, elements);
    side := k;
    var h, w := one.Length0, one.Length1;
    PickIsBiggest(free, h, w, i, j, k);
    SameSide(free, h, w, i, j, k, square.i, square.j, square.size);
    PicturesAgreeIff(free, h, w, i, j, k, square.i, square.j, square.size);
    SquaresOnBoard(free, h, w, i, j, k, square.i, square.j, square.size);
  }

  /** Two free squares cover the same cells of the board exactly when they cover the same cells at all. */
  lemma SquaresOnBoard(free: set<Cell>, h: nat, w: nat, i: int, j: int, k: int, i': int, j': int, k': int)
    requires OnBoard(free, h, w) && Biggest(free, i, j, k) && Biggest(free, i', j', k')
    ensures (forall r, c :: 0 <= r < h && 0 <= c < w ==> (InSquare(r, c, i, j, k) <==> InSquare(r, c, i', j', k'))) <==>
            (forall r, c :: InSquare(r, c, i, j, k) <==> InSquare(r, c, i', j', k'))
  {
    FreeSquareOnBoard(free, h, w, i, j, k);
    FreeSquareOnBoard(free, h, w, i', j', k');
  }

  /** A two-by-two map, with an obstacle in the top-left and bottom-right corners, that misleads. */
  lemma MisledExample()
    ensures
      var free := {Cell(0, 1), Cell(1, 0)};
      && OnBoard(free, 2, 2)
      && ColumnFirstPick(free, 2, 2, 1, 0, 1)
      && TopmostBiggest(free, 0, 1, 1)
  {
    var free := {Cell(0, 1), Cell(1, 0)};
    assert KeyOf(ColumnFirst, 1, 0) == Key(0, 1, 0);
    MisledBiggest();
  }

  lemma MisledBiggest()
    ensures TopmostBiggest({Cell(0, 1), Cell(1, 0)}, 0, 1, 1)
  {
    var free := {Cell(0, 1), Cell(1, 0)};
    forall i, j, k | 1 < k ensures !FreeSquare(free, i, j, k) {
      assert Cell(i, j) !in free || Cell(i + 1, j) !in free;
    }
    forall i, j | FreeSquare(free, i, j, 1) ensures Cell(i, j) in free {
    }
  }
}
