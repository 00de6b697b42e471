// Maze runner on a SIZE x SIZE board of walls (1) and open cells (0).  The
// generator starts from solid wall and carves a recursive-backtracker maze
// through the cells with odd coordinates; the player starts at (1, 1) and
// wins on reaching (SIZE - 2, SIZE - 2).  Cells are written (x, y) and the
// board is indexed [y, x], as the component does.

module Maze {
  import opened Wrappers

  const SIZE: int := 15

  /** A cell, as (x, y). */
  type Pos = (int, int)

  const START: Pos := (1, 1)
  const EXIT: Pos := (SIZE - 2, SIZE - 2)

  /** walk's four steps, [dx, dy], two cells at a time. */
  const DIRS: seq<Pos> := [(0, 2), (0, -2), (2, 0), (-2, 0)]

  predicate IsBoard(m: array2<int>) {
    m.Length0 == SIZE && m.Length1 == SIZE
  }

  /** The board as rows of cells, indexed [y][x]. */
  type Grid = seq<seq<int>>

  predicate IsGrid(g: Grid) {
    |g| == SIZE && forall y :: 0 <= y < SIZE ==> |g[y]| == SIZE
  }

  /** Board m holds grid g. */
  ghost predicate Holds(m: array2<int>, g: Grid)
    requires IsBoard(m) && IsGrid(g)
    reads m
  {
    forall x, y | 0 <= x < SIZE && 0 <= y < SIZE :: m[y, x] == g[y][x]
  }

  predicate InMaze(p: Pos) {
    0 <= p.0 < SIZE && 0 <= p.1 < SIZE
  }

  /** The cells walk may carve: everything but the outer ring. */
  predicate Interior(p: Pos) {
    0 < p.0 < SIZE - 1 && 0 < p.1 < SIZE - 1
  }

  /** The cells walk visits: interior cells with both coordinates odd. */
  predicate Lattice(p: Pos) {
    Interior(p) && p.0 % 2 == 1 && p.1 % 2 == 1
  }

  predicate Adjacent(p: Pos, q: Pos) {
    (p.0 == q.0 && (p.1 == q.1 + 1 || p.1 + 1 == q.1)) ||
    (p.1 == q.1 && (p.0 == q.0 + 1 || p.0 + 1 == q.0))
  }

  /** Cell p is on the board and open. */
  predicate Open(g: Grid, p: Pos)
    requires IsGrid(g)
  {
    InMaze(p) && g[p.1][p.0] == 0
  }

  /** The target of direction k of walk from p. */
  function Step(p: Pos, k: nat): Pos
    requires k < 4
  {
    (p.0 + DIRS[k].0, p.1 + DIRS[k].1)
  }

  /** Every cell is a wall or open. */
  ghost predicate Binary(g: Grid)
    requires IsGrid(g)
  {
    forall x, y | 0 <= x < SIZE && 0 <= y < SIZE :: g[y][x] == 0 || g[y][x] == 1
  }

  /** The outer ring is wall. */
  ghost predicate Borders(g: Grid)
    requires IsGrid(g)
  {
    forall x, y | 0 <= x < SIZE && 0 <= y < SIZE && !Interior((x, y)) :: g[y][x] == 1
  }

  /** Open cell p hangs off the entrance: it is the entrance, or its parent
      is an adjacent open cell nearer to the entrance. */
  ghost predicate Linked(g: Grid, dist: map<Pos, nat>, parent: map<Pos, Pos>, p: Pos)
    requires IsGrid(g)
  {
    p in dist &&
    (p == START ||
     (p in parent && Adjacent(p, parent[p]) && Open(g, parent[p]) && parent[p] in dist && dist[parent[p]] < dist[p]))
  }

  /** Every open cell hangs off the entrance. */
  ghost predicate Rooted(g: Grid, dist: map<Pos, nat>, parent: map<Pos, Pos>)
    requires IsGrid(g)
  {
    forall p {:trigger Linked(g, dist, parent, p)} | Open(g, p) :: Linked(g, dist, parent, p)
  }

  /** Every lattice neighbour of p inside the ring is open. */
  ghost predicate Finished(g: Grid, p: Pos)
    requires IsGrid(g)
  {
    forall k | 0 <= k < 4 :: Interior(Step(p, k)) ==> Open(g, Step(p, k))
  }

  /** Every open lattice cell is still being walked (in stack) or has all
      its lattice neighbours open. */
  ghost predicate Explored(g: Grid, stack: set<Pos>)
    requires IsGrid(g)
  {
    forall p {:trigger Finished(g, p)} | Lattice(p) && Open(g, p) :: p in stack || Finished(g, p)
  }

  /** The cells being walked are open. */
  ghost predicate StackOpen(g: Grid, stack: set<Pos>)
    requires IsGrid(g)
  {
    forall p | p in stack :: Open(g, p)
  }

  /** Every cell open in g is open in h. */
  ghost predicate Opened(g: Grid, h: Grid)
    requires IsGrid(g) && IsGrid(h)
  {
    forall x, y | 0 <= x < SIZE && 0 <= y < SIZE :: g[y][x] == 0 ==> h[y][x] == 0
  }

  /** The lattice cells still wall: walk's measure. */
  ghost function LatticeWalls(g: Grid): set<Pos>
    requires IsGrid(g)
  {
    set x, y | 0 <= x < SIZE && 0 <= y < SIZE && Lattice((x, y)) && g[y][x] == 1 :: (x, y)
  }

  /** g with cell p opened. */
  function Carve(g: Grid, p: Pos): (h: Grid)
    requires IsGrid(g) && InMaze(p)
    ensures IsGrid(h)
  {
    g[p.1 := g[p.1][p.0 := 0]]
  }

  /** A shuffle of the four directions. */
  predicate IsShuffle(s: seq<nat>) {
    |s| == 4 && (forall i :: 0 <= i < 4 ==> s[i] < 4) && forall k :: 0 <= k < 4 ==> k in s
  }

  /** Direction k from lattice cell p, when it lands inside the ring, lands
      on a lattice cell, and the cell half-way is an interior non-lattice
      cell adjacent to both. */
  lemma StepGeometry(p: Pos, k: nat)
    requires Lattice(p) && k < 4 && Interior(Step(p, k))
    ensures Lattice(Step(p, k))
    ensures var c := (p.0 + DIRS[k].0 / 2, p.1 + DIRS[k].1 / 2);
      Interior(c) && !Lattice(c) && Adjacent(c, p) && Adjacent(c, Step(p, k))
  {
  }

  /** Opening is transitive. */
  lemma OpenedTrans(g0: Grid, g1: Grid, g2: Grid)
    requires IsGrid(g0) && IsGrid(g1) && IsGrid(g2)
    requires Opened(g0, g1) && Opened(g1, g2)
    ensures Opened(g0, g2)
  {
  }

  /** Opening never adds lattice walls. */
  lemma WallsMonotone(g: Grid, h: Grid)
    requires IsGrid(g) && IsGrid(h) && Binary(g) && Opened(g, h)
    ensures LatticeWalls(h) <= LatticeWalls(g)
  {
    forall q | q in LatticeWalls(h) ensures q in LatticeWalls(g) {
      assert h[q.1][q.0] == 1;
    }
  }

  /** Opening a non-lattice cell leaves walk's measure as it is. */
  lemma CorridorKeepsWalls(g: Grid, c: Pos)
    requires IsGrid(g) && InMaze(c) && !Lattice(c)
    ensures LatticeWalls(Carve(g, c)) == LatticeWalls(g)
  {
    var h := Carve(g, c);
    forall q | q in LatticeWalls(h) ensures q in LatticeWalls(g) {
      CarveCell(g, c, q.0, q.1);
    }
    forall q | q in LatticeWalls(g) ensures q in LatticeWalls(h) {
      CarveCell(g, c, q.0, q.1);
    }
  }

  /** Opening a lattice wall shrinks walk's measure. */
  lemma WallsShrink(g: Grid, h: Grid, p: Pos)
    requires IsGrid(g) && IsGrid(h) && Binary(g) && Opened(g, h)
    requires Lattice(p) && g[p.1][p.0] == 1 && h[p.1][p.0] == 0
    ensures LatticeWalls(h) < LatticeWalls(g)
  {
    forall q | q in LatticeWalls(h) ensures q in LatticeWalls(g) {
      assert h[q.1][q.0] == 1;
    }
    assert p in LatticeWalls(g) && p !in LatticeWalls(h);
  }

  /** The cells of Carve(g, p). */
  lemma CarveCell(g: Grid, p: Pos, x: int, y: int)
    requires IsGrid(g) && InMaze(p) && 0 <= x < SIZE && 0 <= y < SIZE
    ensures Carve(g, p)[y][x] == if (x, y) == p then 0 else g[y][x]
  {
  }

  /** Opening an interior cell keeps the board binary with its outer ring
      of wall, and closes no open cell. */
  lemma CarveKeeps(g: Grid, p: Pos, stack: set<Pos>)
    requires IsGrid(g) && Interior(p) && Binary(g) && Borders(g) && StackOpen(g, stack)
    ensures var h := Carve(g, p);
      Binary(h) && Borders(h) && StackOpen(h, stack + {p}) && Opened(g, h)
  {
    var h := Carve(g, p);
    forall x, y | 0 <= x < SIZE && 0 <= y < SIZE ensures h[y][x] == if (x, y) == p then 0 else g[y][x] {
      CarveCell(g, p, x, y);
    }
  }

  /** Opening cell p next to open cell from keeps every open cell hanging
      off the entrance, with p recorded as reached from from (the entrance
      needs no parent) when it was wall. */
  lemma CarveRooted(g: Grid, p: Pos, from: Pos, dist: map<Pos, nat>, parent: map<Pos, Pos>)
    returns (dist': map<Pos, nat>, parent': map<Pos, Pos>)
    requires IsGrid(g) && InMaze(p) && Rooted(g, dist, parent)
    requires p == START || (Adjacent(p, from) && Open(g, from))
    ensures Rooted(Carve(g, p), dist', parent')
  {
    var h := Carve(g, p);
    if g[p.1][p.0] == 0 {
      dist', parent' := dist, parent;
    } else if p == START {
      dist', parent' := dist[p := 0], parent;
    } else {
      assert Linked(g, dist, parent, from);
      dist', parent' := dist[p := dist[from] + 1], parent[p := from];
    }
    forall x, y | 0 <= x < SIZE && 0 <= y < SIZE && h[y][x] == 0
      ensures Linked(h, dist', parent', (x, y))
    {
      CarveCell(g, p, x, y);
      if (x, y) != p || g[p.1][p.0] == 0 {
        assert g[y][x] == 0;
        assert Linked(g, dist, parent, (x, y));
        var q := if (x, y) == START then (x, y) else parent[(x, y)];
        CarveCell(g, p, q.0, q.1);
      } else if p != START {
        CarveCell(g, p, from.0, from.1);
      }
    }
  }

  /** Opening a cell keeps every open lattice cell finished or on the
      stack, provided a newly opened lattice cell goes on the stack. */
  lemma CarveExplored(g: Grid, p: Pos, stack: set<Pos>)
    requires IsGrid(g) && InMaze(p) && Explored(g, stack) && (Lattice(p) ==> p in stack)
    ensures Explored(Carve(g, p), stack)
  {
    var h := Carve(g, p);
    forall x, y | Lattice((x, y)) && h[y][x] == 0
      ensures (x, y) in stack || Finished(h, (x, y))
    {
      CarveCell(g, p, x, y);
      if (x, y) !in stack {
        assert g[y][x] == 0;
        assert Finished(g, (x, y));
        forall k | 0 <= k < 4 && Interior(Step((x, y), k)) ensures Open(h, Step((x, y), k)) {
          CarveCell(g, p, Step((x, y), k).0, Step((x, y), k).1);
        }
      }
    }
  }

  /** Opens cell (x, y) of board m: the assignment m[y][x] = 0. */
  method Dig(m: array2<int>, x: int, y: int, ghost g: Grid)
    requires IsBoard(m) && IsGrid(g) && Holds(m, g) && InMaze((x, y))
    modifies m
    ensures Holds(m, Carve(g, (x, y)))
  {
    m[y, x] := 0;
    forall x', y' | 0 <= x' < SIZE && 0 <= y' < SIZE ensures m[y', x'] == Carve(g, (x, y))[y'][x'] {
      CarveCell(g, (x, y), x', y');
    }
  }

  /** The generator's invariant while cells on stack are being walked. */
  ghost predicate Carving(g: Grid, stack: set<Pos>, dist: map<Pos, nat>, parent: map<Pos, Pos>)
    requires IsGrid(g)
  {
    Binary(g) && Borders(g) && Rooted(g, dist, parent) && Explored(g, stack) && StackOpen(g, stack)
  }

  /** walk's first line at lattice wall p, entered from via, keeps the
      invariant with p pushed on the stack, and opens one lattice wall. */
  lemma EnterCell(g: Grid, p: Pos, via: Pos, stack: set<Pos>, dist: map<Pos, nat>, parent: map<Pos, Pos>)
    returns (dist': map<Pos, nat>, parent': map<Pos, Pos>)
    requires IsGrid(g) && Lattice(p) && g[p.1][p.0] == 1 && Carving(g, stack, dist, parent)
    requires p == START || (Adjacent(via, p) && Open(g, via))
    ensures Carving(Carve(g, p), stack + {p}, dist', parent')
    ensures Opened(g, Carve(g, p)) && Open(Carve(g, p), p) && LatticeWalls(Carve(g, p)) < LatticeWalls(g)
  {
    CarveKeeps(g, p, stack);
    dist', parent' := CarveRooted(g, p, via, dist, parent);
    CarveExplored(g, p, stack + {p});
    WallsShrink(g, Carve(g, p), p);
  }

  /** Opening the corridor c from open cell from keeps the invariant and
      leaves the lattice walls as they are. */
  lemma OpenCorridor(g: Grid, c: Pos, from: Pos, stack: set<Pos>, dist: map<Pos, nat>, parent: map<Pos, Pos>)
    returns (dist': map<Pos, nat>, parent': map<Pos, Pos>)
    requires IsGrid(g) && Interior(c) && !Lattice(c) && Carving(g, stack, dist, parent)
    requires Adjacent(c, from) && Open(g, from)
    ensures Carving(Carve(g, c), stack, dist', parent')
    ensures Opened(g, Carve(g, c)) && LatticeWalls(Carve(g, c)) == LatticeWalls(g)
  {
    CarveKeeps(g, c, stack);
    dist', parent' := CarveRooted(g, c, from, dist, parent);
    CarveExplored(g, c, stack);
    CorridorKeepsWalls(g, c);
  }

  /** The first i directions of the shuffle dirs, tried from p, lead to
      open cells wherever they land inside the ring. */
  ghost predicate Tried(h: Grid, p: Pos, dirs: seq<nat>, i: nat)
    requires IsGrid(h) && IsShuffle(dirs) && i <= 4
  {
    forall j | 0 <= j < i :: Interior(Step(p, dirs[j])) ==> Open(h, Step(p, dirs[j]))
  }

  /** Trying one more direction, without closing a cell, extends Tried. */
  lemma TriedMore(h1: Grid, h: Grid, p: Pos, dirs: seq<nat>, i: nat)
    requires IsGrid(h1) && IsGrid(h) && IsShuffle(dirs) && i < 4
    requires Tried(h1, p, dirs, i) && Opened(h1, h)
    requires Interior(Step(p, dirs[i])) ==> Open(h, Step(p, dirs[i]))
    ensures Tried(h, p, dirs, i + 1)
  {
    forall j | 0 <= j < i + 1 ensures Interior(Step(p, dirs[j])) ==> Open(h, Step(p, dirs[j])) {
      var q := Step(p, dirs[j]);
      if j < i {
        assert Interior(q) ==> h1[q.1][q.0] == 0;
      }
    }
  }

  /** Once every direction in the shuffle dirs has been tried from p, p is
      finished and leaves the stack. */
  lemma LeaveCell(h: Grid, p: Pos, dirs: seq<nat>, stack: set<Pos>, dist: map<Pos, nat>, parent: map<Pos, Pos>)
    requires IsGrid(h) && IsShuffle(dirs) && Carving(h, stack + {p}, dist, parent) && Tried(h, p, dirs, 4)
    ensures Carving(h, stack, dist, parent)
  {
    forall k | 0 <= k < 4 ensures Interior(Step(p, k)) ==> Open(h, Step(p, k)) {
      assert k in dirs;
      var j :| 0 <= j < 4 && dirs[j] == k;
    }
    assert Finished(h, p);
  }

  /** walk from lattice wall (x, y), entered from via: the recursive
      backtracker.  order(x, y) is the shuffle of the four directions taken
      at (x, y).  The ghost maps record, for every open cell, a distance and
      the neighbour it was carved from. */
  method Walk(m: array2<int>, x: int, y: int, order: (int, int) -> seq<nat>, ghost g: Grid,
              ghost stack: set<Pos>, ghost via: Pos, ghost dist: map<Pos, nat>, ghost parent: map<Pos, Pos>)
    returns (ghost h: Grid, ghost dist': map<Pos, nat>, ghost parent': map<Pos, Pos>)
    requires IsBoard(m) && IsGrid(g) && Holds(m, g)
    requires Lattice((x, y)) && g[y][x] == 1
    requires forall x', y' :: IsShuffle(order(x', y'))
    requires Carving(g, stack, dist, parent)
    requires (x, y) == START || (Adjacent(via, (x, y)) && Open(g, via))
    modifies m
    decreases LatticeWalls(g), 1
    ensures IsGrid(h) && Holds(m, h) && Carving(h, stack, dist', parent')
    ensures Open(h, (x, y)) && Opened(g, h)
  {
    Dig(m, x, y, g);
    h := Carve(g, (x, y));
    dist', parent' := EnterCell(g, (x, y), via, stack, dist, parent);
    var dirs := order(x, y);
    assert IsShuffle(dirs);
    for i := 0 to |dirs|
      invariant IsGrid(h) && Holds(m, h) && Carving(h, stack + {(x, y)}, dist', parent')
      invariant Opened(g, h) && Open(h, (x, y)) && LatticeWalls(h) < LatticeWalls(g)
      invariant Tried(h, (x, y), dirs, i)
    {
      ghost var h1 := h;
      h, dist', parent' := Tunnel(m, x, y, dirs[i], order, h1, stack + {(x, y)}, dist', parent');
      OpenedTrans(g, h1, h);
      WallsMonotone(h1, h);
      TriedMore(h1, h, (x, y), dirs, i);
    }
    LeaveCell(h, (x, y), dirs, stack, dist', parent');
  }

  /** One turn of walk's loop at lattice cell (x, y) in direction k: when
      the cell two steps away is an interior wall, open the cell between
      and walk from there. */
  method Tunnel(m: array2<int>, x: int, y: int, k: nat, order: (int, int) -> seq<nat>, ghost h: Grid,
                ghost stack: set<Pos>, ghost dist: map<Pos, nat>, ghost parent: map<Pos, Pos>)
    returns (ghost h': Grid, ghost dist': map<Pos, nat>, ghost parent': map<Pos, Pos>)
    requires IsBoard(m) && IsGrid(h) && Holds(m, h) && Lattice((x, y)) && Open(h, (x, y)) && k < 4
    requires forall x', y' :: IsShuffle(order(x', y'))
    requires Carving(h, stack, dist, parent)
    modifies m
    decreases LatticeWalls(h), 2
    ensures IsGrid(h') && Holds(m, h') && Carving(h', stack, dist', parent')
    ensures Opened(h, h') && (Interior(Step((x, y), k)) ==> Open(h', Step((x, y), k)))
  {
    var dx, dy := DIRS[k].0, DIRS[k].1;
    var nx, ny := x + dx, y + dy;
    if nx > 0 && nx < SIZE - 1 && ny > 0 && ny < SIZE - 1 && m[ny, nx] == 1 {
      assert (nx, ny) == Step((x, y), k) && h[ny][nx] == 1;
      StepGeometry((x, y), k);
      ghost var c := (x + dx / 2, y + dy / 2);
      Dig(m, x + dx / 2, y + dy / 2, h);
      ghost var h1 := Carve(h, c);
      CarveCell(h, c, nx, ny);
      dist', parent' := OpenCorridor(h, c, (x, y), stack, dist, parent);
      h', dist', parent' := Walk(m, nx, ny, order, h1, stack, c, dist', parent');
      OpenedTrans(h, h1, h');
    } else {
      h', dist', parent' := h, dist, parent;
    }
  }

  /** The board before walk: wall everywhere. */
  function Solid(): (g: Grid)
    ensures IsGrid(g) && forall x, y | 0 <= x < SIZE && 0 <= y < SIZE :: g[y][x] == 1
  {
    var row := seq(SIZE, _ => 1);
    seq(SIZE, _ => row)
  }

  /** Wall everywhere meets the invariant with nothing on the stack. */
  lemma SolidCarving()
    ensures Carving(Solid(), {}, map[], map[])
  {
  }

  /** Opening an open cell changes nothing. */
  lemma CarveOpen(g: Grid, p: Pos)
    requires IsGrid(g) && Open(g, p)
    ensures Carve(g, p) == g
  {
    assert g[p.1][p.0 := 0] == g[p.1];
  }

  /** A finished walk from the open entrance leaves cell (2a + 1, 1) of
      the top lattice row open. */
  lemma {:induction false} RowOpen(g: Grid, a: nat)
    requires IsGrid(g) && Explored(g, {}) && Open(g, START) && 2 * a + 1 < SIZE - 1
    ensures Open(g, (2 * a + 1, 1))
  {
    if a > 0 {
      RowOpen(g, a - 1);
      var p := (2 * a - 1, 1);
      assert Finished(g, p);
      assert Step(p, 2) == (2 * a + 1, 1);
    }
  }

  /** ... and, walking down from there, cell (2a + 1, 2b + 1). */
  lemma {:induction false} ColumnOpen(g: Grid, a: nat, b: nat)
    requires IsGrid(g) && Explored(g, {}) && Open(g, START) && 2 * a + 1 < SIZE - 1 && 2 * b + 1 < SIZE - 1
    ensures Open(g, (2 * a + 1, 2 * b + 1))
  {
    if b == 0 {
      RowOpen(g, a);
    } else {
      ColumnOpen(g, a, b - 1);
      var p := (2 * a + 1, 2 * b - 1);
      assert Finished(g, p);
      assert Step(p, 0) == (2 * a + 1, 2 * b + 1);
    }
  }

  /** Once walk(1, 1) returns, every lattice cell is open: the generator
      reaches the whole board. */
  lemma AllLatticeOpen(g: Grid)
    requires IsGrid(g) && Explored(g, {}) && Open(g, START)
    ensures forall p | Lattice(p) :: Open(g, p)
  {
    forall p | Lattice(p) ensures Open(g, p) {
      ColumnOpen(g, p.0 / 2, p.1 / 2);
    }
  }

  /** A generated maze: walls and open cells, a wall all round, every
      lattice cell open and every open cell hanging off the entrance. */
  ghost predicate Generated(g: Grid, dist: map<Pos, nat>, parent: map<Pos, Pos>)
    requires IsGrid(g)
  {
    Binary(g) && Borders(g) && Rooted(g, dist, parent) && forall p | Lattice(p) :: Open(g, p)
  }

  /** A walk through open cells, one orthogonal step at a time. */
  ghost predicate IsPath(g: Grid, path: seq<Pos>)
    requires IsGrid(g)
  {
    |path| > 0 && (forall i | 0 <= i < |path| :: Open(g, path[i])) &&
    forall i | 0 < i < |path| :: Adjacent(path[i - 1], path[i])
  }

  /** Every open cell of a board hanging off the entrance is reachable
      from the entrance. */
  lemma {:induction false} PathTo(g: Grid, dist: map<Pos, nat>, parent: map<Pos, Pos>, p: Pos)
    returns (path: seq<Pos>)
    requires IsGrid(g) && Rooted(g, dist, parent) && Open(g, p)
    ensures IsPath(g, path) && path[0] == START && path[|path| - 1] == p
    decreases if p in dist then dist[p] else 0
  {
    assert Linked(g, dist, parent, p);
    if p == START {
      path := [p];
    } else {
      var q := parent[p];
      var prefix := PathTo(g, dist, parent, q);
      path := prefix + [p];
    }
  }

  /** In a generated maze the exit is reachable from the entrance. */
  lemma ExitReachable(g: Grid, dist: map<Pos, nat>, parent: map<Pos, Pos>) returns (path: seq<Pos>)
    requires IsGrid(g) && Generated(g, dist, parent)
    ensures IsPath(g, path) && path[0] == START && path[|path| - 1] == EXIT
  {
    assert Lattice(EXIT);
    path := PathTo(g, dist, parent, EXIT);
  }

  /** The player's move from p by (dx, dy): onto the target when it is an
      open cell of the board, otherwise nowhere. */
  function NextPos(g: Grid, p: Pos, dx: int, dy: int): (q: Pos)
    requires IsGrid(g)
    ensures q == p || (q == (p.0 + dx, p.1 + dy) && Open(g, q))
    ensures Open(g, (p.0 + dx, p.1 + dy)) ==> q == (p.0 + dx, p.1 + dy)
  {
    var target := (p.0 + dx, p.1 + dy);
    if 0 <= target.0 < SIZE && 0 <= target.1 < SIZE && g[target.1][target.0] == 0 then target else p
  }

  /** The four single steps the controls make. */
  predicate IsUnit(d: Pos) {
    d == (0, -1) || d == (0, 1) || d == (-1, 0) || d == (1, 0)
  }

  /** Where a sequence of moves takes the player from p. */
  function Travel(g: Grid, p: Pos, moves: seq<Pos>): (q: Pos)
    requires IsGrid(g)
    ensures Open(g, p) ==> Open(g, q)
    decreases |moves|
  {
    if moves == [] then p else Travel(g, NextPos(g, p, moves[0].0, moves[0].1), moves[1..])
  }

  /** The steps along a path. */
  function Deltas(path: seq<Pos>): (moves: seq<Pos>)
    requires |path| > 0
    ensures |moves| == |path| - 1
  {
    seq(|path| - 1, i requires 0 <= i < |path| - 1 => (path[i + 1].0 - path[i].0, path[i + 1].1 - path[i].1))
  }

  /** The steps along a path are single steps. */
  lemma DeltasUnit(g: Grid, path: seq<Pos>)
    requires IsGrid(g) && IsPath(g, path)
    ensures forall i | 0 <= i < |path| - 1 :: IsUnit(Deltas(path)[i])
  {
    forall i | 0 <= i < |path| - 1 ensures IsUnit(Deltas(path)[i]) {
      assert Adjacent(path[i], path[i + 1]);
    }
  }

  /** A path without its first cell is a path. */
  lemma PathTail(g: Grid, path: seq<Pos>)
    requires IsGrid(g) && IsPath(g, path) && |path| > 1
    ensures IsPath(g, path[1..])
  {
    var rest := path[1..];
    forall i | 0 < i < |rest| ensures Adjacent(rest[i - 1], rest[i]) {
      assert Adjacent(path[i], path[i + 1]);
    }
  }

  /** The steps along a path's tail are the path's steps after the first. */
  lemma DeltasTail(path: seq<Pos>)
    requires |path| > 1
    ensures Deltas(path)[1..] == Deltas(path[1..])
  {
    var moves, rest := Deltas(path), path[1..];
    forall i | 0 <= i < |rest| - 1 ensures moves[1..][i] == Deltas(rest)[i] {
      assert rest[i] == path[i + 1] && rest[i + 1] == path[i + 2];
    }
  }

  /** Following a path's steps with the controls walks the path. */
  lemma {:induction false} TravelPath(g: Grid, path: seq<Pos>)
    requires IsGrid(g) && IsPath(g, path)
    ensures Travel(g, path[0], Deltas(path)) == path[|path| - 1]
    decreases |path|
  {
    if |path| > 1 {
      var moves, rest := Deltas(path), path[1..];
      PathTail(g, path);
      TravelPath(g, rest);
      DeltasTail(path);
      assert (path[0].0 + moves[0].0, path[0].1 + moves[0].1) == path[1];
      assert Open(g, path[1]);
      assert Travel(g, path[0], moves) == Travel(g, path[1], moves[1..]);
    }
  }

  /** In a generated maze some sequence of key presses takes the player
      from the entrance to the exit. */
  lemma Winnable(g: Grid, dist: map<Pos, nat>, parent: map<Pos, Pos>) returns (moves: seq<Pos>)
    requires IsGrid(g) && Generated(g, dist, parent)
    ensures Travel(g, START, moves) == EXIT
    ensures forall i | 0 <= i < |moves| :: IsUnit(moves[i])
  {
    var path := ExitReachable(g, dist, parent);
    TravelPath(g, path);
    DeltasUnit(g, path);
    moves := Deltas(path);
  }

  /** The direction a key moves the player, if any. */
  function KeyMove(key: string): (d: Option<Pos>)
    ensures d.Some? ==> IsUnit(d.value)
    ensures d.Some? <==> key in ["ArrowUp", "w", "W", "ArrowDown", "s", "S", "ArrowLeft", "a", "A", "ArrowRight", "d", "D"]
    ensures key in ["ArrowUp", "w", "W"] ==> d == Some((0, -1))
    ensures key in ["ArrowDown", "s", "S"] ==> d == Some((0, 1))
    ensures key in ["ArrowLeft", "a", "A"] ==> d == Some((-1, 0))
    ensures key in ["ArrowRight", "d", "D"] ==> d == Some((1, 0))
  {
    if key in ["ArrowUp", "w", "W"] then Some((0, -1))
    else if key in ["ArrowDown", "s", "S"] then Some((0, 1))
    else if key in ["ArrowLeft", "a", "A"] then Some((-1, 0))
    else if key in ["ArrowRight", "d", "D"] then Some((1, 0))
    else None
  }

  /** The board generateMaze builds: solid wall, walk(1, 1), then the
      entrance and the exit cleared.  The result is a generated maze, and
      the two clearing writes find those cells already open. */
  method NewBoard(order: (int, int) -> seq<nat>)
    returns (newMaze: array2<int>, ghost h: Grid, ghost dist: map<Pos, nat>, ghost parent: map<Pos, Pos>)
    requires forall x', y' :: IsShuffle(order(x', y'))
    ensures fresh(newMaze) && IsBoard(newMaze) && IsGrid(h) && Holds(newMaze, h) && Generated(h, dist, parent)
  {
    newMaze := new int[SIZE, SIZE]((_, _) => 1);
    SolidCarving();
    h, dist, parent := Walk(newMaze, 1, 1, order, Solid(), {}, START, map[], map[]);
    AllLatticeOpen(h);
    assert Lattice(START) && Lattice(EXIT);
    Dig(newMaze, 1, 1, h);
    CarveOpen(h, START);
    Dig(newMaze, SIZE - 2, SIZE - 2, h);
    CarveOpen(h, EXIT);
  }

  /** The Maze component's state: the board, the player, whether the
      player has won, and whether a maze has been generated yet. */
  class Maze {
    var maze: array2<int>
    var player: Pos
    var won: bool
    var started: bool
    /** The board's contents and the generator's record of how each open
        cell was reached. */
    ghost var board: Grid
    ghost var dist: map<Pos, nat>
    ghost var parent: map<Pos, Pos>

    ghost predicate Valid()
      reads this, maze
    {
      (started ==>
         IsBoard(maze) && IsGrid(board) && Holds(maze, board) && Generated(board, dist, parent) && Open(board, player)) &&
      (!started ==> player == START && !won) &&
      (won <==> player == EXIT)
    }

    /** The state before the first maze is generated. */
    constructor()
      ensures Valid() && !started && !won && player == START
    {
      maze := new int[0, 0];
      player := START;
      won := false;
      started := false;
    }

    /** generateMaze: carve a fresh maze, clear the entrance and the exit,
        and put the player back on the entrance.  order(x, y) is the
        shuffle of directions walk takes at (x, y). */
    method Generate(order: (int, int) -> seq<nat>)
      requires forall x', y' :: IsShuffle(order(x', y'))
      modifies this
      ensures Valid() && fresh(maze) && started && !won && player == START
    {
      var newMaze;
      newMaze, board, dist, parent := NewBoard(order);
      maze := newMaze;
      player, won, started := START, false, true;
    }

    /** Where a move by (dx, dy) takes the player now. */
    ghost function After(dx: int, dy: int): Pos
      reads this
      requires started ==> IsGrid(board)
    {
      if won || !started then player else NextPos(board, player, dx, dy)
    }

    /** movePlayer: ignored once won or before a maze exists; otherwise
        the player steps onto the target when it is open, and winning is
        reaching the exit. */
    method MovePlayer(dx: int, dy: int)
      requires Valid()
      modifies this
      ensures Valid()
      ensures maze == old(maze) && board == old(board) && started == old(started)
      ensures dist == old(dist) && parent == old(parent)
      ensures player == old(After(dx, dy)) && won == (old(won) || (started && player == EXIT))
    {
      if won || !started {
        return;
      }
      var newX, newY := player.0 + dx, player.1 + dy;
      if newX >= 0 && newX < SIZE && newY >= 0 && newY < SIZE && maze[newY, newX] == 0 {
        if newX == SIZE - 2 && newY == SIZE - 2 {
          won := true;
        }
        player := (newX, newY);
      }
    }

    /** The key handler: arrows and WASD move the player one cell. */
    method KeyDown(key: string)
      requires Valid()
      modifies this
      ensures Valid()
      ensures maze == old(maze) && board == old(board) && started == old(started)
      ensures KeyMove(key).Some? ==> player == old(After(KeyMove(key).value.0, KeyMove(key).value.1))
      ensures KeyMove(key).None? ==> player == old(player)
      ensures won == (old(won) || (started && player == EXIT))
    {
      ghost var move := KeyMove(key);
      ghost var target := if move.Some? then After(move.value.0, move.value.1) else player;
      if key in ["ArrowUp", "w", "W"] {
        assert move == Some((0, -1));
        MovePlayer(0, -1);
      }
      if key in ["ArrowDown", "s", "S"] {
        assert move == Some((0, 1));
        MovePlayer(0, 1);
      }
      if key in ["ArrowLeft", "a", "A"] {
        assert move == Some((-1, 0));
        MovePlayer(-1, 0);
      }
      if key in ["ArrowRight", "d", "D"] {
        assert move == Some((1, 0));
        MovePlayer(1, 0);
      }
      assert player == target;
    }
  }
}
