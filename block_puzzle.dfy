// Falling-block puzzle on a 10 x 20 board.  A piece falls one row per drop
// interval; a piece that cannot fall further is written into the board,
// full rows are cleared and scored, and the next piece appears at the top.
// The board, the piece and its position live in one mutable record that the
// handlers update in place; score, level and the flags are component state.

module BlockPuzzle {
  import opened Wrappers
  import Scores

  const COLS: int := 10
  const ROWS: int := 20

  /** How many kinds of piece there are. */
  const SHAPE_COUNT: nat := 7

  /** The horizontal offsets rotate tries, in order. */
  const KICKS: seq<int> := [0, 1, -1, 2, -2]

  /** Points for one, two, three or four rows cleared at once, before the level factor. */
  const POINTS: seq<nat> := [0, 100, 300, 500, 800]

  type Board = seq<seq<nat>>
  type Shape = seq<seq<nat>>

  predicate IsBoard(g: Board) {
    |g| == ROWS && forall r :: 0 <= r < |g| ==> |g[r]| == COLS
  }

  /** A rectangle of at most four by four cells. */
  predicate IsShape(s: Shape) {
    1 <= |s| <= 4 && 1 <= |s[0]| <= 4 && forall r :: 0 <= r < |s| ==> |s[r]| == |s[0]|
  }

  /** Cell (r, c) of the shape is filled. */
  predicate Filled(s: Shape, r: int, c: int) {
    0 <= r < |s| && 0 <= c < |s[r]| && s[r][c] != 0
  }

  predicate HasCell(s: Shape) {
    exists r, c :: 0 <= r < |s| && 0 <= c < |s[r]| && Filled(s, r, c)
  }

  /** The pieces, by index: I, O, T, S, Z, J, L; a non-zero entry is a
      filled cell. */
  function ShapeOf(i: nat): (s: Shape)
    requires i < SHAPE_COUNT
    ensures IsShape(s) && HasCell(s)
  {
    var s :=
      if i == 0 then [[1, 1, 1, 1]]
      else if i == 1 then [[1, 1], [1, 1]]
      else if i == 2 then [[0, 1, 0], [1, 1, 1]]
      else if i == 3 then [[1, 1, 0], [0, 1, 1]]
      else if i == 4 then [[0, 1, 1], [1, 1, 0]]
      else if i == 5 then [[1, 0, 0], [1, 1, 1]]
      else [[0, 0, 1], [1, 1, 1]];
    assert Filled(s, 1 % |s|, 1);
    s
  }

  function ZeroRow(): (row: seq<nat>)
    ensures |row| == COLS && forall c :: 0 <= c < COLS ==> row[c] == 0
  {
    seq(COLS, _ => 0)
  }

  function ZeroRows(n: nat): (g: Board)
    ensures |g| == n && forall r :: 0 <= r < n ==> g[r] == ZeroRow()
  {
    seq(n, _ => ZeroRow())
  }

  /** The empty board startGame puts in place. */
  function EmptyBoard(): (g: Board)
    ensures IsBoard(g)
  {
    ZeroRows(ROWS)
  }

  lemma EmptyBoardClear()
    ensures IsBoard(EmptyBoard()) && NoFullRow(EmptyBoard())
    ensures forall r :: 0 <= r < ROWS ==> EmptyBoard()[r] == ZeroRow()
  {
    ZeroRowNotFull();
  }

  // ---------------------------------------------------------------------------
  // Collision

  /** A filled cell landing on (nx, ny) is blocked: outside the side walls,
      below the floor, or on a filled board cell.  Cells above the top are free. */
  predicate Blocked(g: Board, nx: int, ny: int)
    requires IsBoard(g)
  {
    nx < 0 || nx >= COLS || ny >= ROWS || (ny >= 0 && g[ny][nx] != 0)
  }

  /** Some filled cell of shape row r, from column c on, is blocked when the
      shape is placed at (x, y). */
  predicate RowCollides(g: Board, s: Shape, x: int, y: int, r: nat, c: nat)
    requires IsBoard(g) && r < |s| && c <= |s[r]|
    decreases |s[r]| - c
  {
    c < |s[r]| && ((s[r][c] != 0 && Blocked(g, x + c, y + r)) || RowCollides(g, s, x, y, r, c + 1))
  }

  /** Some filled cell of the shape, from row r on, is blocked. */
  predicate RowsCollide(g: Board, s: Shape, x: int, y: int, r: nat)
    requires IsBoard(g) && r <= |s|
    decreases |s| - r
  {
    r < |s| && (RowCollides(g, s, x, y, r, 0) || RowsCollide(g, s, x, y, r + 1))
  }

  /** collide, for the shape placed at (x, y): some filled cell is blocked. */
  predicate Collides(g: Board, s: Shape, x: int, y: int)
    requires IsBoard(g)
  {
    RowsCollide(g, s, x, y, 0)
  }

  lemma {:induction false} RowCollidesIff(g: Board, s: Shape, x: int, y: int, r: nat, c: nat)
    requires IsBoard(g) && r < |s| && c <= |s[r]|
    ensures RowCollides(g, s, x, y, r, c) <==>
              exists c' :: c <= c' < |s[r]| && Filled(s, r, c') && Blocked(g, x + c', y + r)
    decreases |s[r]| - c
  {
    if c < |s[r]| {
      RowCollidesIff(g, s, x, y, r, c + 1);
      if s[r][c] != 0 && Blocked(g, x + c, y + r) {
        assert Filled(s, r, c);
      }
    }
  }

  lemma {:induction false} RowsCollideIff(g: Board, s: Shape, x: int, y: int, r: nat)
    requires IsBoard(g) && r <= |s|
    ensures RowsCollide(g, s, x, y, r) <==>
              exists r', c :: r <= r' < |s| && 0 <= c < |s[r']| && Filled(s, r', c) && Blocked(g, x + c, y + r')
    decreases |s| - r
  {
    if r < |s| {
      RowCollidesIff(g, s, x, y, r, 0);
      RowsCollideIff(g, s, x, y, r + 1);
    }
  }

  /** collide is true exactly when some filled cell of the placed shape lies
      outside the side walls, below the floor or on a filled board cell;
      cells above the top never collide. */
  lemma CollidesIff(g: Board, s: Shape, x: int, y: int)
    requires IsBoard(g)
    ensures Collides(g, s, x, y) <==>
              exists r, c :: 0 <= r < |s| && 0 <= c < |s[r]| && Filled(s, r, c) && Blocked(g, x + c, y + r)
  {
    RowsCollideIff(g, s, x, y, 0);
  }

  /** A piece with a filled cell collides once its top reaches the floor. */
  lemma BelowFloorCollides(g: Board, s: Shape, x: int, y: int)
    requires IsBoard(g) && HasCell(s)
    ensures !Collides(g, s, x, y) ==> y < ROWS
  {
    var r, c :| 0 <= r < |s| && 0 <= c < |s[r]| && Filled(s, r, c);
    assert y >= ROWS ==> Blocked(g, x + c, y + r);
    CollidesIff(g, s, x, y);
  }

  /** Every filled cell of the shape placed at (x, y) lies between the side
      walls and above the floor: the cells merge writes exist on the board. */
  predicate InBounds(s: Shape, x: int, y: int) {
    forall r, c | 0 <= r < |s| && 0 <= c < |s[r]| ::
      Filled(s, r, c) ==> 0 <= x + c < COLS && y + r < ROWS
  }

  /** A piece that fits lies within the board. */
  lemma FitsInBounds(g: Board, s: Shape, x: int, y: int)
    requires IsBoard(g) && !Collides(g, s, x, y)
    ensures InBounds(s, x, y)
  {
    CollidesIff(g, s, x, y);
    forall r, c | Filled(s, r, c) ensures 0 <= x + c < COLS && y + r < ROWS {
      assert !Blocked(g, x + c, y + r);
    }
  }

  /** Every shape, centred at the top as spawn puts it, lies within the board. */
  lemma SpawnInBounds(s: Shape)
    requires IsShape(s)
    ensures InBounds(s, COLS / 2 - |s[0]| / 2, 0)
  {
    var x := COLS / 2 - |s[0]| / 2;
    assert 3 <= x && x + |s[0]| <= 7;
    forall r, c | Filled(s, r, c) ensures 0 <= x + c < COLS && r < ROWS {
      assert c < |s[0]|;
    }
  }

  /** collide(xOffset, yOffset, shape, position): the scan over the shape's
      cells, stopping at the first blocked one. */
  method Collide(g: Board, s: Shape, px: int, py: int, xOffset: int, yOffset: int) returns (hit: bool)
    requires IsBoard(g)
    ensures hit <==> Collides(g, s, px + xOffset, py + yOffset)
  {
    var x, y := px + xOffset, py + yOffset;
    var r := 0;
    while r < |s|
      invariant 0 <= r <= |s|
      invariant RowsCollide(g, s, x, y, r) == Collides(g, s, x, y)
    {
      var c := 0;
      while c < |s[r]|
        invariant 0 <= c <= |s[r]|
        invariant RowCollides(g, s, x, y, r, c) == RowCollides(g, s, x, y, r, 0)
      {
        if s[r][c] != 0 {
          var newX := px + c + xOffset;
          var newY := py + r + yOffset;
          if newX < 0 || newX >= COLS || newY >= ROWS || (newY >= 0 && g[newY][newX] != 0) {
            return true;
          }
        }
        c := c + 1;
      }
      r := r + 1;
    }
    return false;
  }

  // ---------------------------------------------------------------------------
  // Writing a piece into the board

  /** The shape placed at (x, y) has a filled cell on board cell (r, c). */
  predicate Covers(s: Shape, x: int, y: int, r: int, c: int) {
    Filled(s, r - y, c - x)
  }

  /** Shape cell (sr, sc) comes before (rows, cols) in the row-by-row scan. */
  predicate Before(sr: int, sc: int, rows: int, cols: int) {
    sr < rows || (sr == rows && sc < cols)
  }

  /** The board after merge has written the shape's cells that come before
      (rows, cols) in its scan. */
  function MergedPart(g: Board, s: Shape, x: int, y: int, v: nat, rows: int, cols: int): (m: Board)
    ensures |m| == |g| && forall r :: 0 <= r < |g| ==> |m[r]| == |g[r]|
  {
    seq(|g|, r requires 0 <= r < |g| =>
      seq(|g[r]|, c requires 0 <= c < |g[r]| =>
        if Covers(s, x, y, r, c) && Before(r - y, c - x, rows, cols) then v else g[r][c]))
  }

  /** merge: the board with value v on every cell the piece covers. */
  function Merged(g: Board, s: Shape, x: int, y: int, v: nat): (m: Board)
    ensures |m| == |g| && forall r :: 0 <= r < |g| ==> |m[r]| == |g[r]|
  {
    MergedPart(g, s, x, y, v, |s|, 0)
  }

  /** merge writes v into exactly the covered cells on the board and leaves
      every other cell as it was. */
  lemma MergedCells(g: Board, s: Shape, x: int, y: int, v: nat)
    requires IsBoard(g)
    ensures IsBoard(Merged(g, s, x, y, v))
    ensures forall r, c :: 0 <= r < ROWS && 0 <= c < COLS ==>
              Merged(g, s, x, y, v)[r][c] == if Covers(s, x, y, r, c) then v else g[r][c]
  {
  }

  /** The board with cell (r, c) set to v. */
  function SetCell(g: Board, r: nat, c: nat, v: nat): Board
    requires r < |g| && c < |g[r]|
  {
    var row: seq<nat> := g[r][c := v];
    g[r := row]
  }

  /** One step of merge's scan: shape cell (sr, sc) is written, if it is
      filled and lies on the board. */
  lemma MergeStep(g: Board, s: Shape, x: int, y: int, v: nat, sr: nat, sc: nat, cur: Board)
    requires IsBoard(g) && sr < |s| && sc < |s[sr]|
    requires cur == MergedPart(g, s, x, y, v, sr, sc) && InBounds(s, x, y)
    ensures s[sr][sc] != 0 && y + sr >= 0 ==> 0 <= x + sc < COLS && y + sr < ROWS
    ensures s[sr][sc] != 0 && y + sr >= 0 ==>
              SetCell(cur, y + sr, x + sc, v) == MergedPart(g, s, x, y, v, sr, sc + 1)
    ensures !(s[sr][sc] != 0 && y + sr >= 0) ==> cur == MergedPart(g, s, x, y, v, sr, sc + 1)
  {
    var next := MergedPart(g, s, x, y, v, sr, sc + 1);
    if s[sr][sc] != 0 && y + sr >= 0 {
      assert Filled(s, sr, sc);
      var upd := SetCell(cur, y + sr, x + sc, v);
      forall r | 0 <= r < |g| ensures upd[r] == next[r] {
        forall c | 0 <= c < |g[r]| ensures upd[r][c] == next[r][c] {
        }
      }
    } else {
      forall r | 0 <= r < |g| ensures cur[r] == next[r] {
        forall c | 0 <= c < |g[r]| ensures cur[r][c] == next[r][c] {
          if r == y + sr && c == x + sc {
            assert !Covers(s, x, y, r, c);
          }
        }
      }
    }
  }

  /** The end of one shape row of merge's scan is the start of the next. */
  lemma MergeRowDone(g: Board, s: Shape, x: int, y: int, v: nat, sr: nat)
    requires sr < |s|
    ensures MergedPart(g, s, x, y, v, sr, |s[sr]|) == MergedPart(g, s, x, y, v, sr + 1, 0)
  {
    var a := MergedPart(g, s, x, y, v, sr, |s[sr]|);
    var b := MergedPart(g, s, x, y, v, sr + 1, 0);
    forall r | 0 <= r < |g| ensures a[r] == b[r] {
    }
  }

  lemma MergeStart(g: Board, s: Shape, x: int, y: int, v: nat)
    ensures MergedPart(g, s, x, y, v, 0, 0) == g
  {
    var a := MergedPart(g, s, x, y, v, 0, 0);
    forall r | 0 <= r < |g| ensures a[r] == g[r] {
    }
  }

  /** merge's scan over the shape, row by row and cell by cell, writing v
      on the board under every filled cell that lies below the top edge,
      over whatever the board holds there. */
  method WriteShape(g: Board, s: Shape, x: int, y: int, v: nat) returns (board: Board)
    requires IsBoard(g) && InBounds(s, x, y)
    ensures board == Merged(g, s, x, y, v)
  {
    board := g;
    MergeStart(g, s, x, y, v);
    for sr := 0 to |s|
      invariant board == MergedPart(g, s, x, y, v, sr, 0)
    {
      for sc := 0 to |s[sr]|
        invariant board == MergedPart(g, s, x, y, v, sr, sc)
      {
        MergeStep(g, s, x, y, v, sr, sc, board);
        if s[sr][sc] != 0 && y + sr >= 0 {
          board := SetCell(board, y + sr, x + sc, v);
        }
      }
      MergeRowDone(g, s, x, y, v, sr);
    }
  }

  // ---------------------------------------------------------------------------
  // Clearing full rows

  predicate FullRow(row: seq<nat>) {
    forall c :: 0 <= c < |row| ==> row[c] != 0
  }

  predicate NoFullRow(g: Board) {
    forall r :: 0 <= r < |g| ==> !FullRow(g[r])
  }

  lemma ZeroRowNotFull()
    ensures !FullRow(ZeroRow())
  {
    assert ZeroRow()[0] == 0;
  }

  /** The rows that are not full, top to bottom. */
  function Kept(g: Board): (k: Board)
    ensures |k| <= |g|
  {
    if g == [] then [] else (if FullRow(g[0]) then [] else [g[0]]) + Kept(g[1..])
  }

  /** How many rows are full. */
  function Lines(g: Board): nat {
    |g| - |Kept(g)|
  }

  /** clearLines' board: one zero row on top for every full row removed, then
      the other rows in their old order. */
  function Cleared(g: Board): Board {
    ZeroRows(Lines(g)) + Kept(g)
  }

  lemma {:induction false} KeptRows(g: Board)
    ensures forall i :: 0 <= i < |Kept(g)| ==> !FullRow(Kept(g)[i]) && Kept(g)[i] in g
  {
    if g != [] {
      KeptRows(g[1..]);
    }
  }

  /** After clearLines the board keeps its size, holds no full row, has zero
      rows on top and the remaining rows, in order, at the bottom; a board
      without full rows is left alone. */
  lemma ClearedShape(g: Board)
    requires IsBoard(g)
    ensures IsBoard(Cleared(g)) && NoFullRow(Cleared(g))
    ensures forall r :: 0 <= r < Lines(g) ==> Cleared(g)[r] == ZeroRow()
    ensures Cleared(g)[Lines(g)..] == Kept(g)
    ensures NoFullRow(g) ==> Cleared(g) == g
  {
    KeptRows(g);
    var k := Kept(g);
    var cg := Cleared(g);
    forall r | 0 <= r < |cg| ensures |cg[r]| == COLS && !FullRow(cg[r]) {
      if r < Lines(g) {
        assert cg[r] == ZeroRow();
        assert cg[r][0] == 0;
      } else {
        assert cg[r] == k[r - Lines(g)];
      }
    }
    if NoFullRow(g) {
      KeptAll(g);
    }
  }

  lemma {:induction false} KeptAll(g: Board)
    requires NoFullRow(g)
    ensures Kept(g) == g
  {
    if g != [] {
      assert !FullRow(g[0]);
      KeptAll(g[1..]);
    }
  }

  /** Line count, one row at a time. */
  lemma LinesFront(g: Board)
    requires g != []
    ensures Lines(g) == (if FullRow(g[0]) then 1 else 0) + Lines(g[1..])
  {
  }

  /** When every full row lies in a band of h rows, at most h rows are full. */
  lemma {:induction false} LinesInBand(g: Board, a: int, h: nat)
    requires forall r :: 0 <= r < |g| && FullRow(g[r]) ==> a <= r < a + h
    ensures Lines(g) <= h
  {
    if g != [] {
      LinesFront(g);
      var rest := g[1..];
      if FullRow(g[0]) {
        forall r | 0 <= r < |rest| && FullRow(rest[r]) ensures 0 <= r < a + h - 1 {
          assert rest[r] == g[r + 1];
        }
        LinesInBand(rest, 0, if a + h - 1 >= 0 then a + h - 1 else 0);
      } else {
        forall r | 0 <= r < |rest| && FullRow(rest[r]) ensures a - 1 <= r < a - 1 + h {
          assert rest[r] == g[r + 1];
        }
        LinesInBand(rest, a - 1, h);
      }
    }
  }

  /** The board while clearLines' row loop runs: the rows of g before j not
      yet scanned, below lines zero rows, and the rows kept from the scanned
      part underneath. */
  ghost function Scanned(g: Board, j: nat, lines: nat): Board
    requires j <= |g|
  {
    ZeroRows(lines) + g[..j] + Kept(g[j..])
  }

  /** One step of clearLines' row loop at row y: a full row is spliced out
      and a zero row put on top; any other row stays; above the rows of g
      lie only zero rows, which are never full. */
  lemma ClearStep(g: Board, j: nat, lines: nat, y: int)
    requires j <= |g| && 0 <= y && (if j > 0 then y + 1 == lines + j else y + 1 <= lines)
    ensures var cur := Scanned(g, j, lines);
            y < |cur| &&
            (j == 0 ==> !FullRow(cur[y])) &&
            (j > 0 ==> cur[y] == g[j - 1]) &&
            (j > 0 && FullRow(g[j - 1]) ==>
               [ZeroRow()] + (cur[..y] + cur[y + 1..]) == Scanned(g, j - 1, lines + 1)) &&
            (j > 0 && !FullRow(g[j - 1]) ==> cur == Scanned(g, j - 1, lines))
  {
    var cur := Scanned(g, j, lines);
    if j == 0 {
      ZeroRowNotFull();
      assert cur[y] == ZeroRow();
    } else {
      assert g[j - 1..][1..] == g[j..];
      if FullRow(g[j - 1]) {
        assert Kept(g[j - 1..]) == Kept(g[j..]);
        assert cur[..y] == ZeroRows(lines) + g[..j - 1];
        assert cur[y + 1..] == Kept(g[j..]);
        assert [ZeroRow()] + ZeroRows(lines) == ZeroRows(lines + 1);
      } else {
        assert Kept(g[j - 1..]) == [g[j - 1]] + Kept(g[j..]);
        assert g[..j] == g[..j - 1] + [g[j - 1]];
      }
    }
  }

  /** The scan starts from g itself and, with every row scanned, has built
      clearLines' board. */
  lemma ScanEnds(g: Board, lines: nat)
    ensures Scanned(g, |g|, 0) == g
    ensures |Scanned(g, 0, lines)| == |g| ==> Scanned(g, 0, lines) == Cleared(g) && lines == Lines(g)
  {
    assert g[..|g|] == g && g[|g|..] == [];
    assert g[..0] == [] && g[0..] == g;
  }

  /** The row loop of clearLines: from the bottom row up, a full row is spliced
      out and a zero row put on top, and the same index is looked at again. */
  method ClearRows(g: Board) returns (grid: Board, linesCleared: nat)
    requires IsBoard(g)
    ensures grid == Cleared(g) && linesCleared == Lines(g)
  {
    grid := g;
    linesCleared := 0;
    ghost var j: nat := |g|;
    var y := ROWS - 1;
    ScanEnds(g, 0);
    while y >= 0
      invariant -1 <= y < ROWS && j <= |g|
      invariant grid == Scanned(g, j, linesCleared) && |grid| == ROWS
      invariant if j > 0 then y + 1 == linesCleared + j else y + 1 <= linesCleared
      decreases j + y + 1
    {
      ClearStep(g, j, linesCleared, y);
      if FullRow(grid[y]) {
        grid := [ZeroRow()] + (grid[..y] + grid[y + 1..]);
        linesCleared := linesCleared + 1;
        j := j - 1;
        y := y + 1;
      } else if j > 0 {
        j := j - 1;
      }
      y := y - 1;
    }
    ScanEnds(g, linesCleared);
  }

  // ---------------------------------------------------------------------------
  // Rotation

  /** The rotated shape rotate builds: row i is column i read bottom to top,
      a quarter turn clockwise. */
  function RotateShape(s: Shape): (t: Shape)
    requires IsShape(s)
    ensures IsShape(t) && |t| == |s[0]| && |t[0]| == |s|
    ensures forall i, j :: 0 <= i < |s[0]| && 0 <= j < |s| ==> t[i][j] == s[|s| - 1 - j][i]
  {
    seq(|s[0]|, i requires 0 <= i < |s[0]| => seq(|s|, j requires 0 <= j < |s| => s[|s| - 1 - j][i]))
  }

  lemma RotateKeepsCell(s: Shape)
    requires IsShape(s) && HasCell(s)
    ensures HasCell(RotateShape(s))
  {
    var r, c :| 0 <= r < |s| && 0 <= c < |s[r]| && Filled(s, r, c);
    assert Filled(RotateShape(s), c, |s| - 1 - r);
  }

  /** Two quarter turns turn the shape upside down and mirror it. */
  lemma RotateTwice(s: Shape)
    requires IsShape(s)
    ensures var t := RotateShape(RotateShape(s));
            IsShape(t) && |t| == |s| && |t[0]| == |s[0]| &&
            forall i, j :: 0 <= i < |s| && 0 <= j < |s[0]| ==> t[i][j] == s[|s| - 1 - i][|s[0]| - 1 - j]
  {
    var t1 := RotateShape(s);
    var t2 := RotateShape(t1);
    forall i, j | 0 <= i < |s| && 0 <= j < |s[0]|
      ensures t2[i][j] == s[|s| - 1 - i][|s[0]| - 1 - j]
    {
      assert t2[i][j] == t1[|s[0]| - 1 - j][i];
    }
  }

  /** Four quarter turns give back the shape. */
  lemma RotateFour(s: Shape)
    requires IsShape(s)
    ensures RotateShape(RotateShape(RotateShape(RotateShape(s)))) == s
  {
    var t2 := RotateShape(RotateShape(s));
    var t4 := RotateShape(RotateShape(t2));
    RotateTwice(s);
    RotateTwice(t2);
    forall i | 0 <= i < |s| ensures t4[i] == s[i] {
      forall j | 0 <= j < |s[0]| ensures t4[i][j] == s[i][j] {
        assert t4[i][j] == t2[|s| - 1 - i][|s[0]| - 1 - j];
      }
    }
  }

  /** The first kick, from index i on, at which the rotated shape fits. */
  function FirstKick(g: Board, t: Shape, x: int, y: int, i: nat): (k: Option<nat>)
    requires IsBoard(g)
    ensures k.Some? ==> i <= k.value < |KICKS|
    decreases |KICKS| - i
  {
    if i >= |KICKS| then None
    else if !Collides(g, t, x + KICKS[i], y) then Some(i)
    else FirstKick(g, t, x, y, i + 1)
  }

  /** rotate takes the first kick in the order 0, 1, -1, 2, -2 at which the
      rotated shape fits, and none when every one of them collides. */
  lemma {:induction false} FirstKickSpec(g: Board, t: Shape, x: int, y: int, i: nat)
    requires IsBoard(g)
    ensures FirstKick(g, t, x, y, i).Some? ==>
              !Collides(g, t, x + KICKS[FirstKick(g, t, x, y, i).value], y) &&
              forall j :: i <= j < FirstKick(g, t, x, y, i).value ==> Collides(g, t, x + KICKS[j], y)
    ensures FirstKick(g, t, x, y, i).None? ==>
              forall j :: i <= j < |KICKS| ==> Collides(g, t, x + KICKS[j], y)
    decreases |KICKS| - i
  {
    if i < |KICKS| {
      FirstKickSpec(g, t, x, y, i + 1);
    }
  }

  // ---------------------------------------------------------------------------
  // Score, level, speed

  /** The drop interval in milliseconds at a level: 70 ms faster per level,
      never below 100 ms. */
  function DropInterval(level: int): (ms: int)
    ensures ms >= 100
    ensures level >= 1 ==> 100 <= ms <= 800
  {
    if 800 - (level - 1) * 70 > 100 then 800 - (level - 1) * 70 else 100
  }

  lemma DropIntervalMonotone(a: int, b: int)
    requires 1 <= a <= b
    ensures DropInterval(b) <= DropInterval(a)
    ensures DropInterval(a) == 800 - (a - 1) * 70 || DropInterval(a) == 100
    ensures a >= 11 ==> DropInterval(a) == 100
  {
  }

  /** The level a score reaches: one more for every thousand points. */
  function LevelOf(score: nat): (level: nat)
    ensures level >= 1
  {
    score / 1000 + 1
  }

  /** A higher score never means a lower level. */
  lemma LevelOfMonotone(a: nat, b: nat)
    requires a <= b
    ensures LevelOf(a) <= LevelOf(b)
  {
    assert a / 1000 * 1000 <= a;
    assert b < (b / 1000 + 1) * 1000;
  }

  /** The points a lock earns: the table entry for the rows cleared, times the level. */
  function Points(lines: nat, level: nat): nat
    requires lines < |POINTS|
  {
    POINTS[lines] * level
  }

  // ---------------------------------------------------------------------------
  // The game state as a value, and what each step does to it

  /** The board, the falling piece, its place and colour index, the index of
      the next piece, and the score state; over is the game-over flag. */
  datatype Play = Play(grid: Board, shape: Shape, x: int, y: int, color: nat, next: nat,
                       score: nat, high: nat, level: nat, interval: int, over: bool)

  /** The board has no full row, the piece is a shape of the game with a
      filled cell, it lies within the board, and it rests where it fits
      unless the game is over (then it may overlap the stack); level and drop
      interval follow the score, which never passes the best. */
  predicate ValidPlay(p: Play) {
    IsBoard(p.grid) && NoFullRow(p.grid) &&
    IsShape(p.shape) && HasCell(p.shape) && p.color < SHAPE_COUNT && p.next < SHAPE_COUNT &&
    InBounds(p.shape, p.x, p.y) && (!p.over ==> !Collides(p.grid, p.shape, p.x, p.y)) &&
    ScoreOK(p)
  }

  /** The score never passes the best; level and drop interval follow the score. */
  predicate ScoreOK(p: Play) {
    p.score <= p.high && p.level == LevelOf(p.score) && p.interval == DropInterval(p.level)
  }

  /** spawn: the next piece comes in at the top, centred; the game is over
      when it does not fit there. */
  function SpawnSpec(p: Play, draw: nat): Play
    requires IsBoard(p.grid) && p.next < SHAPE_COUNT
  {
    var s := ShapeOf(p.next);
    var x := COLS / 2 - |s[0]| / 2;
    p.(shape := s, color := p.next, next := draw, x := x, y := 0, over := p.over || Collides(p.grid, s, x, 0))
  }

  /** clearLines: full rows go; when some went, the score grows by the points
      for that many rows times the level, and best, level and drop interval
      follow the new score. */
  function ClearSpec(p: Play): Play
    requires IsBoard(p.grid) && Lines(p.grid) < |POINTS|
  {
    var n := Lines(p.grid);
    var q := p.(grid := Cleared(p.grid));
    if n == 0 then q
    else
      var score := p.score + Points(n, p.level);
      var level := LevelOf(score);
      q.(score := score, high := Scores.Best(p.high, score),
         level := level, interval := if level != p.level then DropInterval(level) else p.interval)
  }

  /** Locking the piece: merge it in with its colour, clear lines, spawn.
      After game over the piece may overlap the stack; merge then writes
      over the cells it covers. */
  function LockSpec(p: Play, draw: nat): Play
    requires ValidPlay(p)
  {
    var m := Merged(p.grid, p.shape, p.x, p.y, p.color + 1);
    MergedLines(p);
    ClearedShape(m);
    SpawnSpec(ClearSpec(p.(grid := m)), draw)
  }

  /** move(dx, dy): the piece moves when it fits there; a blocked downward
      move locks it; a blocked sideways move changes nothing. */
  function MoveSpec(p: Play, dx: int, dy: int, draw: nat): Play
    requires ValidPlay(p)
  {
    if !Collides(p.grid, p.shape, p.x + dx, p.y + dy) then p.(x := p.x + dx, y := p.y + dy)
    else if dy > 0 then LockSpec(p, draw)
    else p
  }

  /** rotate: the turned shape at the first kick that fits, or no change. */
  function RotateSpec(p: Play): Play
    requires ValidPlay(p)
  {
    var t := RotateShape(p.shape);
    match FirstKick(p.grid, t, p.x, p.y, 0)
    case None => p
    case Some(k) => p.(shape := t, x := p.x + KICKS[k])
  }

  /** The row getGhostY stops at: going down from y, the last row before the
      piece would collide one row lower.  Row y itself is never tested, so
      this is defined for a piece that overlaps the stack too. */
  function GhostRow(g: Board, s: Shape, x: int, y: int): int
    requires IsBoard(g) && HasCell(s)
    decreases ROWS - y
  {
    BelowFloorCollides(g, s, x, y + 1);
    if Collides(g, s, x, y + 1) then y else GhostRow(g, s, x, y + 1)
  }

  /** The ghost row is the first row at or below the piece on which it comes
      to rest: the piece fits on every row below its own down to it, and not
      one row lower; from a row above the floor it stays above the floor. */
  lemma {:induction false} GhostRowSpec(g: Board, s: Shape, x: int, y: int)
    requires IsBoard(g) && HasCell(s)
    ensures var r := GhostRow(g, s, x, y);
            y <= r && Collides(g, s, x, r + 1) &&
            (y < ROWS ==> r < ROWS) &&
            forall k :: y < k <= r ==> !Collides(g, s, x, k)
    decreases ROWS - y
  {
    BelowFloorCollides(g, s, x, y + 1);
    if !Collides(g, s, x, y + 1) {
      GhostRowSpec(g, s, x, y + 1);
    }
  }

  /** The hard drop: the piece locks on its ghost row. */
  function DropSpec(p: Play, draw: nat): Play
    requires ValidPlay(p) && !p.over
  {
    GhostRowSpec(p.grid, p.shape, p.x, p.y);
    FitsInBounds(p.grid, p.shape, p.x, GhostRow(p.grid, p.shape, p.x, p.y));
    LockSpec(p.(y := GhostRow(p.grid, p.shape, p.x, p.y)), draw)
  }

  // ---------------------------------------------------------------------------
  // What the steps keep

  /** Rows away from the piece are untouched by merge, so only the piece's
      own rows can become full: at most four rows clear at once, and the
      points table is never read past its end. */
  lemma MergedLines(p: Play)
    requires ValidPlay(p)
    ensures IsBoard(Merged(p.grid, p.shape, p.x, p.y, p.color + 1))
    ensures Lines(Merged(p.grid, p.shape, p.x, p.y, p.color + 1)) <= |p.shape| < |POINTS|
  {
    var m := Merged(p.grid, p.shape, p.x, p.y, p.color + 1);
    MergedCells(p.grid, p.shape, p.x, p.y, p.color + 1);
    forall r | 0 <= r < |m| && !(p.y <= r < p.y + |p.shape|) ensures m[r] == p.grid[r] {
      forall c | 0 <= c < COLS ensures m[r][c] == p.grid[r][c] {
        assert !Covers(p.shape, p.x, p.y, r, c);
      }
    }
    LinesInBand(m, p.y, |p.shape|);
  }

  lemma SpawnKeepsValid(p: Play, draw: nat)
    requires IsBoard(p.grid) && NoFullRow(p.grid) && p.next < SHAPE_COUNT && draw < SHAPE_COUNT
    requires ScoreOK(p)
    ensures ValidPlay(SpawnSpec(p, draw))
    ensures SpawnSpec(p, draw).y == 0 && SpawnSpec(p, draw).shape == ShapeOf(p.next)
    ensures var q := SpawnSpec(p, draw); q.score == p.score && q.high == p.high && q.level == p.level
    ensures p.over ==> SpawnSpec(p, draw).over
  {
    SpawnInBounds(ShapeOf(p.next));
  }

  /** Locking a piece keeps the state well formed; the score grows by the
      points for the rows cleared times the level it was reached at. */
  lemma LockKeepsValid(p: Play, draw: nat)
    requires ValidPlay(p) && draw < SHAPE_COUNT
    ensures ValidPlay(LockSpec(p, draw))
    ensures var n := Lines(Merged(p.grid, p.shape, p.x, p.y, p.color + 1));
            n < |POINTS| && LockSpec(p, draw).score == p.score + Points(n, p.level)
    ensures LockSpec(p, draw).level >= p.level && LockSpec(p, draw).high >= p.high
  {
    var m := Merged(p.grid, p.shape, p.x, p.y, p.color + 1);
    MergedLines(p);
    var c := ClearSpec(p.(grid := m));
    ClearKeepsValid(p.(grid := m));
    SpawnKeepsValid(c, draw);
    assert LockSpec(p, draw) == SpawnSpec(c, draw);
  }

  /** clearLines leaves a board without full rows and keeps the score state
      in step; the score grows by the points for the rows times the level. */
  lemma ClearKeepsValid(q: Play)
    requires IsBoard(q.grid) && Lines(q.grid) < |POINTS| && ScoreOK(q)
    ensures IsBoard(ClearSpec(q).grid) && NoFullRow(ClearSpec(q).grid) && ScoreOK(ClearSpec(q))
    ensures ClearSpec(q).score == q.score + Points(Lines(q.grid), q.level)
    ensures ClearSpec(q).level >= q.level && ClearSpec(q).high >= q.high
    ensures ClearSpec(q).(grid := q.grid, score := q.score, high := q.high, level := q.level,
                          interval := q.interval) == q
  {
    ClearedShape(q.grid);
    var n := Lines(q.grid);
    var c := ClearSpec(q);
    if n == 0 {
      assert POINTS[0] == 0;
      assert Points(0, q.level) == 0;
      assert c == q.(grid := Cleared(q.grid));
    } else {
      var score := q.score + Points(n, q.level);
      assert c.score == score && c.level == LevelOf(score) && c.high == Scores.Best(q.high, score);
      LevelOfMonotone(q.score, score);
    }
  }

  lemma MoveKeepsValid(p: Play, dx: int, dy: int, draw: nat)
    requires ValidPlay(p) && draw < SHAPE_COUNT
    ensures ValidPlay(MoveSpec(p, dx, dy, draw))
    ensures MoveSpec(p, dx, dy, draw).score >= p.score
    ensures p.over ==> MoveSpec(p, dx, dy, draw).over
  {
    if !Collides(p.grid, p.shape, p.x + dx, p.y + dy) {
      FitsInBounds(p.grid, p.shape, p.x + dx, p.y + dy);
    } else if dy > 0 {
      LockKeepsValid(p, draw);
      var m := Merged(p.grid, p.shape, p.x, p.y, p.color + 1);
      MergedLines(p);
      SpawnKeepsValid(ClearSpec(p.(grid := m)), draw);
    }
  }

  lemma RotateKeepsValid(p: Play)
    requires ValidPlay(p)
    ensures ValidPlay(RotateSpec(p))
  {
    var t := RotateShape(p.shape);
    RotateKeepsCell(p.shape);
    FirstKickSpec(p.grid, t, p.x, p.y, 0);
    var k := FirstKick(p.grid, t, p.x, p.y, 0);
    if k.Some? {
      FitsInBounds(p.grid, t, p.x + KICKS[k.value], p.y);
    }
  }

  /** The first piece, before any game, fits where it is put. */
  lemma InitialFits()
    ensures !Collides(EmptyBoard(), ShapeOf(0), 4, 0)
  {
    var s := ShapeOf(0);
    forall r, c | Filled(s, r, c) ensures !Blocked(EmptyBoard(), 4 + c, r) {
      assert EmptyBoard()[r] == ZeroRow();
    }
    CollidesIff(EmptyBoard(), s, 4, 0);
  }

  /** A new game never starts over: every piece fits at the top of the
      empty board. */
  lemma StartFits(p: Play, draw: nat)
    requires p.grid == EmptyBoard() && p.next < SHAPE_COUNT && !p.over
    ensures !SpawnSpec(p, draw).over
  {
    var s := ShapeOf(p.next);
    var x := COLS / 2 - |s[0]| / 2;
    forall r, c | Filled(s, r, c) ensures !Blocked(p.grid, x + c, r) {
      assert p.grid[r] == ZeroRow();
    }
    CollidesIff(p.grid, s, x, 0);
  }

  /** One step of the hard drop: from a row above the ghost row the piece
      moves down one row; on the ghost row the move fails and the piece locks
      there. */
  lemma DropStep(p: Play, y: int, draw: nat)
    requires ValidPlay(p) && !p.over && ValidPlay(p.(y := y))
    requires GhostRow(p.grid, p.shape, p.x, y) == GhostRow(p.grid, p.shape, p.x, p.y)
    ensures Collides(p.grid, p.shape, p.x, y + 1) ==> MoveSpec(p.(y := y), 0, 1, draw) == DropSpec(p, draw)
    ensures !Collides(p.grid, p.shape, p.x, y + 1) ==>
              MoveSpec(p.(y := y), 0, 1, draw) == p.(y := y + 1) &&
              y + 1 <= GhostRow(p.grid, p.shape, p.x, p.y) &&
              GhostRow(p.grid, p.shape, p.x, y + 1) == GhostRow(p.grid, p.shape, p.x, p.y)
  {
    GhostRowSpec(p.grid, p.shape, p.x, y);
  }

  // ---------------------------------------------------------------------------
  // The on-screen buttons

  /** The four touch buttons under the board: left, rotate, down, right. */
  datatype Button = LeftButton | TurnButton | DownButton | RightButton

  /** What a button does to the play: move(-1, 0), rotate(), move(0, 1) or
      move(1, 0). */
  function ButtonSpec(p: Play, b: Button, draw: nat): Play
    requires ValidPlay(p)
  {
    match b
    case LeftButton => MoveSpec(p, -1, 0, draw)
    case TurnButton => RotateSpec(p)
    case DownButton => MoveSpec(p, 0, 1, draw)
    case RightButton => MoveSpec(p, 1, 0, draw)
  }

  /** A board with one full row counts at least one line. */
  lemma {:induction false} FullRowLines(g: Board, r: nat)
    requires r < |g| && FullRow(g[r])
    ensures Lines(g) >= 1
    decreases r
  {
    LinesFront(g);
    if r > 0 {
      FullRowLines(g[1..], r - 1);
    }
  }

  /** A game that has just ended: the O piece spawned at column 4 overlaps
      the stack in row 0, which is full but for column 4, and a cell in row 2
      keeps the piece from moving down. */
  function OverExample(): Play {
    var top: seq<nat> := seq(COLS, c => if c == 4 then 0 else 1);
    var ledge: seq<nat> := seq(COLS, c => if c == 4 then 1 else 0);
    var g: Board := EmptyBoard()[0 := top][2 := ledge];
    Play(g, ShapeOf(1), 4, 0, 1, 0, 0, 0, 1, 800, true)
  }

  /** The example is a well-formed play whose piece overlaps the stack. */
  lemma OverExampleValid()
    ensures var p := OverExample();
            ValidPlay(p) && p.over && Collides(p.grid, p.shape, p.x, p.y)
  {
    var p := OverExample();
    var g, s := p.grid, p.shape;
    assert NoFullRow(g) by {
      forall r | 0 <= r < |g| ensures !FullRow(g[r]) {
        if r == 0 {
          assert g[r][4] == 0;
        } else {
          assert g[r][0] == 0;
        }
      }
    }
    assert Filled(s, 0, 1) && Blocked(g, 5, 0);
    CollidesIff(g, s, 4, 0);
  }

  /** After game over the down button still locks the piece: it is merged
      over the stack, the row it completes is cleared, and score and best
      rise while the game stays over. */
  lemma ButtonScoresAfterGameOver(draw: nat)
    requires draw < SHAPE_COUNT
    ensures ValidPlay(OverExample()) && OverExample().over
    ensures var p := OverExample();
            ValidPlay(p) &&
            var q := ButtonSpec(p, DownButton, draw);
            q.over && q.score > p.score && q.high > p.high
  {
    OverExampleValid();
    var p := OverExample();
    var g, s := p.grid, p.shape;
    assert Filled(s, 1, 0) && Blocked(g, 4, 2);
    CollidesIff(g, s, 4, 1);
    MoveKeepsValid(p, 0, 1, draw);
    LockKeepsValid(p, draw);
    var m := Merged(g, s, 4, 0, p.color + 1);
    MergedCells(g, s, 4, 0, p.color + 1);
    assert FullRow(m[0]) by {
      forall c | 0 <= c < |m[0]| ensures m[0][c] != 0 {
        if c == 4 {
          assert Covers(s, 4, 0, 0, 4);
        }
      }
    }
    FullRowLines(m, 0);
    var n := Lines(m);
    assert POINTS[n] >= 100 by {
      assert 1 <= n < 5;
    }
  }

  // ---------------------------------------------------------------------------
  // The component

  /** The component: play is the record the handlers update in place (board,
      piece, position, colour and next index, drop interval) together with the
      score state; started, lastTick and frame drive the animation loop. */
  class BlockPuzzle {
    var play: Play
    var started: bool
    var lastTick: int
    var frame: nat

    ghost predicate Valid()
      reads this
    {
      ValidPlay(play)
    }

    /** The state before the first game: an empty board, the I piece at
        (4, 0), a drawn next piece, and the best score found in storage. */
    constructor (draw: nat, savedHigh: nat)
      requires draw < SHAPE_COUNT
      ensures Valid() && !started && lastTick == 0 && frame == 0
      ensures play == Play(EmptyBoard(), ShapeOf(0), 4, 0, 0, draw, 0, savedHigh, 1, 800, false)
    {
      play := Play(EmptyBoard(), ShapeOf(0), 4, 0, 0, draw, 0, savedHigh, 1, 800, false);
      lastTick, frame := 0, 0;
      started := false;
      InitialFits();
      EmptyBoardClear();
    }

    /** merge: the piece's filled cells on the board get its colour index
        plus one. */
    method Merge()
      requires Valid()
      modifies this
      ensures play == old(play).(grid := Merged(old(play).grid, play.shape, play.x, play.y, play.color + 1))
      ensures started == old(started) && lastTick == old(lastTick) && frame == old(frame)
    {
      var board := WriteShape(play.grid, play.shape, play.x, play.y, play.color + 1);
      play := play.(grid := board);
    }

    /** clearLines, with its scoring. */
    method ClearLines()
      requires IsBoard(play.grid) && Lines(play.grid) < |POINTS| && ScoreOK(play)
      modifies this
      ensures play == ClearSpec(old(play))
      ensures started == old(started) && lastTick == old(lastTick) && frame == old(frame)
    {
      var cleared, linesCleared := ClearRows(play.grid);
      play := play.(grid := cleared);
      if linesCleared > 0 {
        var points := POINTS[linesCleared] * play.level;
        var newScore := play.score + points;
        if newScore > play.high {
          play := play.(high := newScore);
        }
        var newLevel := newScore / 1000 + 1;
        if newLevel != play.level {
          play := play.(level := newLevel, interval := DropInterval(newLevel));
        }
        play := play.(score := newScore);
      }
    }

    /** spawn; draw is the index of the piece after the new one. */
    method Spawn(draw: nat)
      requires IsBoard(play.grid) && play.next < SHAPE_COUNT
      modifies this
      ensures play == SpawnSpec(old(play), draw)
      ensures started == old(started) && lastTick == old(lastTick) && frame == old(frame)
    {
      play := play.(shape := ShapeOf(play.next), color := play.next);
      play := play.(next := draw);
      play := play.(x := COLS / 2 - |play.shape[0]| / 2, y := 0);
      var hit := Collide(play.grid, play.shape, play.x, play.y, 0, 0);
      if hit {
        play := play.(over := true);
      }
    }

    /** move(dx, dy); moved is its return value. */
    method Move(dx: int, dy: int, draw: nat) returns (moved: bool)
      requires Valid() && draw < SHAPE_COUNT
      modifies this
      ensures Valid()
      ensures moved <==> !Collides(old(play).grid, old(play).shape, old(play).x + dx, old(play).y + dy)
      ensures play == MoveSpec(old(play), dx, dy, draw)
      ensures moved ==> play == old(play).(x := old(play).x + dx, y := old(play).y + dy)
      ensures started == old(started) && lastTick == old(lastTick) && frame == old(frame)
    {
      ghost var p := play;
      MoveKeepsValid(p, dx, dy, draw);
      var hit := Collide(play.grid, play.shape, play.x, play.y, dx, dy);
      moved := !hit;
      if moved {
        play := play.(x := play.x + dx, y := play.y + dy);
      } else if dy > 0 {
        Lock(draw);
      }
    }

    /** The locking half of move: merge, clear lines, spawn. */
    method Lock(draw: nat)
      requires Valid() && draw < SHAPE_COUNT
      modifies this
      ensures play == LockSpec(old(play), draw)
      ensures started == old(started) && lastTick == old(lastTick) && frame == old(frame)
    {
      MergedLines(play);
      Merge();
      ClearKeepsValid(play);
      ClearLines();
      Spawn(draw);
    }

    /** rotate: the kicks are tried in order. */
    method Rotate()
      requires Valid()
      modifies this
      ensures Valid()
      ensures play == RotateSpec(old(play))
      ensures started == old(started) && lastTick == old(lastTick) && frame == old(frame)
    {
      RotateKeepsValid(play);
      var rotated := RotateShape(play.shape);
      var g, px, py := play.grid, play.x, play.y;
      for i := 0 to |KICKS|
        invariant unchanged(this)
        invariant FirstKick(g, rotated, px, py, i) == FirstKick(g, rotated, px, py, 0)
      {
        var hit := Collide(g, rotated, px, py, KICKS[i], 0);
        if !hit {
          assert FirstKick(g, rotated, px, py, 0) == Some(i);
          play := play.(x := px + KICKS[i], shape := rotated);
          return;
        }
      }
      assert FirstKick(g, rotated, px, py, 0) == None;
    }

    /** getGhostY: the row the piece would land on if dropped; every render
        computes it, after game over too. */
    method GetGhostY() returns (ghostY: int)
      requires Valid()
      ensures ghostY == GhostRow(play.grid, play.shape, play.x, play.y)
    {
      var g, s, px, py := play.grid, play.shape, play.x, play.y;
      ghostY := py;
      var hit := Collide(g, s, px, py, 0, ghostY - py + 1);
      while !hit
        invariant GhostRow(g, s, px, ghostY) == GhostRow(g, s, px, py)
        invariant hit <==> Collides(g, s, px, ghostY + 1)
        decreases ROWS - ghostY
      {
        BelowFloorCollides(g, s, px, ghostY + 1);
        ghostY := ghostY + 1;
        hit := Collide(g, s, px, py, 0, ghostY - py + 1);
      }
    }

    /** The hard drop: move down until the move fails, which locks the piece. */
    method HardDrop(draw: nat)
      requires Valid() && !play.over && draw < SHAPE_COUNT
      modifies this
      ensures Valid()
      ensures play == DropSpec(old(play), draw)
      ensures started == old(started) && lastTick == old(lastTick) && frame == old(frame)
    {
      ghost var p := play;
      GhostRowSpec(p.grid, p.shape, p.x, p.y);
      ghost var target := GhostRow(p.grid, p.shape, p.x, p.y);
      var moved := true;
      while moved
        invariant Valid()
        invariant started == old(started) && lastTick == old(lastTick) && frame == old(frame)
        invariant moved ==> play == p.(y := play.y) && p.y <= play.y <= target &&
                            GhostRow(p.grid, p.shape, p.x, play.y) == target
        invariant !moved ==> play == DropSpec(p, draw)
        decreases if moved then 1 else 0, target - play.y
      {
        ghost var y := play.y;
        DropStep(p, y, draw);
        moved := Move(0, 1, draw);
      }
    }

    /** The key handler: arrows move and rotate, the space bar drops. */
    method Key(key: string, draw: nat)
      requires Valid() && draw < SHAPE_COUNT
      modifies this
      ensures Valid()
      ensures started == old(started) && lastTick == old(lastTick) && frame == old(frame)
      ensures old(play).over || !started ==> play == old(play)
      ensures !old(play).over && started ==>
                play == (if key == "ArrowLeft" then MoveSpec(old(play), -1, 0, draw)
                         else if key == "ArrowRight" then MoveSpec(old(play), 1, 0, draw)
                         else if key == "ArrowDown" then MoveSpec(old(play), 0, 1, draw)
                         else if key == "ArrowUp" then RotateSpec(old(play))
                         else if key == " " then DropSpec(old(play), draw)
                         else old(play))
    {
      if play.over || !started {
        return;
      }
      if key == "ArrowLeft" {
        var _ := Move(-1, 0, draw);
      } else if key == "ArrowRight" {
        var _ := Move(1, 0, draw);
      } else if key == "ArrowDown" {
        var _ := Move(0, 1, draw);
      } else if key == "ArrowUp" {
        Rotate();
      } else if key == " " {
        HardDrop(draw);
      }
    }

    /** The touch buttons as written: move and rotate are called with no
        check of started or gameOver, so they act before the game starts and
        after it ends. */
    method PressAsWritten(b: Button, draw: nat)
      requires Valid() && draw < SHAPE_COUNT
      modifies this
      ensures Valid()
      ensures started == old(started) && lastTick == old(lastTick) && frame == old(frame)
      ensures play == ButtonSpec(old(play), b, draw)
    {
      match b {
        case LeftButton => var _ := Move(-1, 0, draw);
        case TurnButton => Rotate();
        case DownButton => var _ := Move(0, 1, draw);
        case RightButton => var _ := Move(1, 0, draw);
      }
    }

    /** The touch buttons guarded as the keys are: nothing happens before the
        game starts or after it ends. */
    method Press(b: Button, draw: nat)
      requires Valid() && draw < SHAPE_COUNT
      modifies this
      ensures Valid()
      ensures started == old(started) && lastTick == old(lastTick) && frame == old(frame)
      ensures old(play).over || !started ==> play == old(play)
      ensures !old(play).over && started ==> play == ButtonSpec(old(play), b, draw)
    {
      if play.over || !started {
        return;
      }
      PressAsWritten(b, draw);
    }

    /** One animation frame at the given time: the piece falls one row once
        more than the drop interval has passed since the last fall. */
    method Tick(time: int, draw: nat)
      requires Valid() && draw < SHAPE_COUNT
      modifies this
      ensures Valid() && started == old(started)
      ensures old(play).over || !started ==>
                play == old(play) && lastTick == old(lastTick) && frame == old(frame)
      ensures !old(play).over && started ==>
                var last := if old(lastTick) == 0 then time else old(lastTick);
                frame == old(frame) + 1 &&
                if time - last > old(play).interval then
                  play == MoveSpec(old(play), 0, 1, draw) && lastTick == time
                else
                  play == old(play) && lastTick == last
    {
      if !started || play.over {
        return;
      }
      if lastTick == 0 {
        lastTick := time;
      }
      var delta := time - lastTick;
      if delta > play.interval {
        var _ := Move(0, 1, draw);
        lastTick := time;
      }
      frame := frame + 1;
    }

    /** startGame: an empty board, score 0, level 1, full drop interval, and
        the next piece comes in; a new game never starts over. */
    method StartGame(draw: nat)
      requires Valid() && draw < SHAPE_COUNT
      modifies this
      ensures Valid() && started && !play.over && lastTick == 0 && frame == old(frame)
      ensures play == SpawnSpec(old(play).(grid := EmptyBoard(), score := 0, level := 1,
                                           interval := 800, over := false), draw)
      ensures play.high == old(play).high
    {
      play := play.(grid := EmptyBoard());
      lastTick := 0;
      play := play.(interval := 800, score := 0, level := 1, over := false);
      started := true;
      StartFits(play, draw);
      EmptyBoardClear();
      SpawnKeepsValid(play, draw);
      Spawn(draw);
    }
  }
}
