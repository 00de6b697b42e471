// 2048 on a 4 x 4 grid of tiles (0 is an empty cell).  Every move is
// reduced to a move to the left: the grid is turned clockwise so that the
// chosen direction points left, each row is slid and merged, and the grid is
// turned back.  A move that changed something scores its merges and drops a
// new 2 or 4 on a random empty cell.

module Game2048 {

  type Grid = seq<seq<nat>>

  predicate IsGrid(g: Grid) {
    |g| == 4 && forall i :: 0 <= i < 4 ==> |g[i]| == 4
  }

  function Zeros(n: nat): (z: seq<nat>)
    ensures |z| == n && forall i :: 0 <= i < n ==> z[i] == 0
  {
    if n == 0 then [] else [0] + Zeros(n - 1)
  }

  function Sum(s: seq<nat>): nat {
    if s == [] then 0 else s[0] + Sum(s[1..])
  }

  /** The sum of all tiles on the grid. */
  function Total(g: Grid): nat
    requires IsGrid(g)
  {
    Sum(g[0]) + Sum(g[1]) + Sum(g[2]) + Sum(g[3])
  }

  lemma {:induction false} SumAppend(a: seq<nat>, b: seq<nat>)
    ensures Sum(a + b) == Sum(a) + Sum(b)
  {
    if a == [] {
      assert a + b == b;
    } else {
      SumAppend(a[1..], b);
      assert (a + b)[0] == a[0];
      assert (a + b)[1..] == a[1..] + b;
    }
  }

  lemma {:induction false} SumZeros(n: nat)
    ensures Sum(Zeros(n)) == 0
  {
    if n > 0 {
      SumZeros(n - 1);
    }
  }

  lemma SumFour(s: seq<nat>)
    requires |s| == 4
    ensures Sum(s) == s[0] + s[1] + s[2] + s[3]
  {
    assert Sum(s[3..]) == s[3] by {
      assert s[3..][0] == s[3] && s[3..][1..] == [];
    }
    assert Sum(s[2..]) == s[2] + Sum(s[3..]) by {
      assert s[2..][0] == s[2] && s[2..][1..] == s[3..];
    }
    assert Sum(s[1..]) == s[1] + Sum(s[2..]) by {
      assert s[1..][0] == s[1] && s[1..][1..] == s[2..];
    }
  }

  // ---------------------------------------------------------------------------
  // One row

  /** row.filter(v => v !== 0): the tiles of the row, in order. */
  function NonZero(row: seq<nat>): (r: seq<nat>)
    ensures |r| <= |row|
    ensures forall i :: 0 <= i < |r| ==> r[i] > 0
  {
    if row == [] then []
    else if row[0] != 0 then [row[0]] + NonZero(row[1..])
    else NonZero(row[1..])
  }

  /** The filter keeps exactly the tiles. */
  lemma {:induction false} NonZeroMembers(row: seq<nat>)
    ensures forall x :: x in NonZero(row) <==> x in row && x != 0
  {
    if row != [] {
      NonZeroMembers(row[1..]);
      assert row == [row[0]] + row[1..];
    }
  }

  lemma {:induction false} NonZeroSum(row: seq<nat>)
    ensures Sum(NonZero(row)) == Sum(row)
  {
    if row != [] {
      NonZeroSum(row[1..]);
    }
  }

  /** The tiles after the merge scan: from the left, two equal neighbours
      become one tile of twice the value, and the merged tile does not take
      part in another merge. */
  function MergeLeft(t: seq<nat>): (r: seq<nat>)
    ensures (|t| + 1) / 2 <= |r| <= |t|
    decreases |t|
  {
    if |t| < 2 then t
    else if t[0] == t[1] then [2 * t[0]] + MergeLeft(t[2..])
    else [t[0]] + MergeLeft(t[1..])
  }

  /** What the merges of one row add to the score: the values of the new tiles. */
  function MergeScore(t: seq<nat>): nat
    decreases |t|
  {
    if |t| < 2 then 0
    else if t[0] == t[1] then 2 * t[0] + MergeScore(t[2..])
    else MergeScore(t[1..])
  }

  lemma {:induction false} MergeLeftSum(t: seq<nat>)
    ensures Sum(MergeLeft(t)) == Sum(t)
    decreases |t|
  {
    if |t| >= 2 {
      if t[0] == t[1] {
        MergeLeftSum(t[2..]);
        assert t[1..][1..] == t[2..];
      } else {
        MergeLeftSum(t[1..]);
      }
    }
  }

  lemma {:induction false} MergeLeftPositive(t: seq<nat>)
    requires forall i :: 0 <= i < |t| ==> t[i] > 0
    ensures forall i :: 0 <= i < |MergeLeft(t)| ==> MergeLeft(t)[i] > 0
    decreases |t|
  {
    if |t| >= 2 {
      if t[0] == t[1] {
        MergeLeftPositive(t[2..]);
      } else {
        MergeLeftPositive(t[1..]);
      }
    }
  }

  /** On tiles, the scan leaves the row alone exactly when it scores nothing,
      and that is exactly when no two neighbours are equal. */
  lemma {:induction false} MergeLeftIdentity(t: seq<nat>)
    requires forall i :: 0 <= i < |t| ==> t[i] > 0
    ensures MergeLeft(t) == t <==> MergeScore(t) == 0
    ensures MergeScore(t) == 0 <==> forall i :: 0 <= i < |t| - 1 ==> t[i] != t[i + 1]
    decreases |t|
  {
    if |t| >= 2 {
      if t[0] == t[1] {
        MergeLeftIdentity(t[2..]);
        assert |MergeLeft(t)| < |t|;
      } else {
        MergeLeftIdentity(t[1..]);
        forall i | 1 <= i < |t| - 1 ensures t[1..][i - 1] == t[i] && t[1..][i] == t[i + 1] {
        }
        assert MergeLeft(t) == t <==> MergeLeft(t[1..]) == t[1..] by {
          assert t == [t[0]] + t[1..];
        }
      }
    }
  }

  /** The row after a move to the left: the merged tiles, then zeros up to four cells. */
  function Slide(row: seq<nat>): (s: seq<nat>)
    requires |row| == 4
    ensures |s| == 4
  {
    var m := MergeLeft(NonZero(row));
    m + Zeros(4 - |m|)
  }

  /** The slid row holds the merged tiles first and zeros after them, and
      the same sum as before. */
  lemma SlideLayout(row: seq<nat>)
    requires |row| == 4
    ensures forall i :: 0 <= i < |MergeLeft(NonZero(row))| ==> Slide(row)[i] > 0
    ensures forall i :: |MergeLeft(NonZero(row))| <= i < 4 ==> Slide(row)[i] == 0
    ensures Sum(Slide(row)) == Sum(row)
  {
    var m := MergeLeft(NonZero(row));
    MergeLeftPositive(NonZero(row));
    NonZeroSum(row);
    MergeLeftSum(NonZero(row));
    SumAppend(m, Zeros(4 - |m|));
    SumZeros(4 - |m|);
  }

  /** A row that scores a merge always changes. */
  lemma MergeChangesRow(row: seq<nat>)
    requires |row| == 4 && MergeScore(NonZero(row)) > 0
    ensures Slide(row) != row
  {
    var t := NonZero(row);
    MergeLeftIdentity(t);
    MergeLeftPositive(t);
    var m := MergeLeft(t);
    // the tiles of the slid row are m, and m differs from the tiles t of the row
    NonZeroPadded(m, 4 - |m|);
    assert NonZero(Slide(row)) == m != t;
  }

  lemma {:induction false} NonZeroPadded(m: seq<nat>, n: nat)
    requires forall i :: 0 <= i < |m| ==> m[i] > 0
    ensures NonZero(m + Zeros(n)) == m
  {
    if m == [] {
      NonZeroZeros(n);
      assert m + Zeros(n) == Zeros(n);
    } else {
      NonZeroPadded(m[1..], n);
      assert (m + Zeros(n))[0] == m[0];
      assert (m + Zeros(n))[1..] == m[1..] + Zeros(n);
    }
  }

  lemma {:induction false} NonZeroZeros(n: nat)
    ensures NonZero(Zeros(n)) == []
  {
    if n > 0 {
      NonZeroZeros(n - 1);
    }
  }

  /** One position of the merge scan. */
  lemma MergeAt(row: seq<nat>, c: nat)
    requires c + 1 < |row|
    ensures row[c] == row[c + 1] ==>
              MergeLeft(row[c..]) == [2 * row[c]] + MergeLeft(row[c + 2..]) &&
              MergeScore(row[c..]) == 2 * row[c] + MergeScore(row[c + 2..])
    ensures row[c] != row[c + 1] ==>
              MergeLeft(row[c..]) == [row[c]] + MergeLeft(row[c + 1..]) &&
              MergeScore(row[c..]) == MergeScore(row[c + 1..])
  {
    var t := row[c..];
    assert t[0] == row[c] && t[1] == row[c + 1];
    assert t[1..] == row[c + 1..] && t[2..] == row[c + 2..];
  }

  /** Merging at c keeps the scan's account: what is done plus what the rest
      will give is still the merge of the whole row. */
  lemma ScanMerge(before: seq<nat>, c: nat, after: seq<nat>, tiles: seq<nat>)
    requires c + 1 < |before| && before[c] == before[c + 1]
    requires after == before[c := 2 * before[c]][..c + 1] + before[c := 2 * before[c]][c + 2..]
    requires before[..c] + MergeLeft(before[c..]) == MergeLeft(tiles)
    requires forall i :: 0 <= i < |before| ==> before[i] > 0
    ensures forall i :: 0 <= i < |after| ==> after[i] > 0
    ensures after[..c + 1] + MergeLeft(after[c + 1..]) == MergeLeft(tiles)
    ensures MergeScore(before[c..]) == 2 * before[c] + MergeScore(after[c + 1..])
  {
    MergeAt(before, c);
    assert after == before[..c] + [2 * before[c]] + before[c + 2..];
    assert after[..c + 1] == before[..c] + [2 * before[c]];
    assert after[c + 1..] == before[c + 2..];
    forall i | 0 <= i < |after| ensures after[i] > 0 {
      if i > c {
        assert after[i] == before[i + 1];
      }
    }
  }

  /** Passing over an unequal pair keeps the scan's account. */
  lemma ScanKeep(row: seq<nat>, c: nat, tiles: seq<nat>)
    requires c + 1 < |row| && row[c] != row[c + 1]
    requires row[..c] + MergeLeft(row[c..]) == MergeLeft(tiles)
    ensures row[..c + 1] + MergeLeft(row[c + 1..]) == MergeLeft(tiles)
    ensures MergeScore(row[c..]) == MergeScore(row[c + 1..])
  {
    MergeAt(row, c);
    assert row[..c + 1] == row[..c] + [row[c]];
  }

  /** At the end of the scan the row is the merged row. */
  lemma ScanDone(row: seq<nat>, c: nat, tiles: seq<nat>)
    requires c <= |row| && |row| - 1 <= c
    requires row[..c] + MergeLeft(row[c..]) == MergeLeft(tiles)
    ensures row == MergeLeft(tiles) && MergeScore(row[c..]) == 0
  {
    assert row[..c] + row[c..] == row;
  }

  /** The merge scan as the row loop runs it: filter, then double and splice
      at every equal pair, then pad with zeros.  merged records that some
      pair was merged. */
  method SlideRow(line: seq<nat>) returns (newRow: seq<nat>, gained: nat, merged: bool)
    requires |line| == 4
    ensures newRow == Slide(line)
    ensures gained == MergeScore(NonZero(line))
    ensures merged <==> gained > 0
  {
    var row := NonZero(line);
    ghost var tiles := row;
    gained, merged := 0, false;
    var c := 0;
    while c < |row| - 1
      invariant 0 <= c <= |row|
      invariant forall i :: 0 <= i < |row| ==> row[i] > 0
      invariant row[..c] + MergeLeft(row[c..]) == MergeLeft(tiles)
      invariant gained + MergeScore(row[c..]) == MergeScore(tiles)
      invariant merged <==> gained > 0
      decreases |row| - c
    {
      if row[c] == row[c + 1] {
        ghost var before := row;
        row := row[c := 2 * row[c]];
        gained := gained + row[c];
        row := row[..c + 1] + row[c + 2..];
        merged := true;
        ScanMerge(before, c, row, tiles);
      } else {
        ScanKeep(row, c, tiles);
      }
      c := c + 1;
    }
    ScanDone(row, c, tiles);
    newRow := row + Zeros(4 - |row|);
  }

  /** Each tile merges at most once per move. */
  lemma MergeOncePerMove()
    ensures Slide([2, 2, 2, 2]) == [4, 4, 0, 0] && MergeScore(NonZero([2, 2, 2, 2])) == 8
    ensures Slide([2, 2, 4, 0]) == [4, 4, 0, 0] && MergeScore(NonZero([2, 2, 4, 0])) == 4
  {
    assert NonZero([2, 2, 2, 2]) == [2, 2, 2, 2];
    assert NonZero([2, 2, 4, 0]) == [2, 2, 4];
    assert MergeLeft([2, 2, 2, 2]) == [4, 4];
    assert MergeLeft([2, 2, 4]) == [4, 4];
  }

  // ---------------------------------------------------------------------------
  // Rotation

  /** Column i of the grid, top to bottom. */
  function Column(g: Grid, i: nat): seq<nat>
    requires IsGrid(g) && i < 4
  {
    [g[0][i], g[1][i], g[2][i], g[3][i]]
  }

  function Reverse(s: seq<nat>): (r: seq<nat>)
    ensures |r| == |s| && forall k :: 0 <= k < |s| ==> r[k] == s[|s| - 1 - k]
  {
    if s == [] then [] else Reverse(s[1..]) + [s[0]]
  }

  /** rotateGrid: the grid turned a quarter clockwise; cell (i, j) of the
      result is the cell the turn carries there. */
  function Rotate(g: Grid): (r: Grid)
    requires IsGrid(g)
    ensures IsGrid(r)
  {
    seq(4, i requires 0 <= i < 4 => seq(4, j requires 0 <= j < 4 => g[3 - j][i]))
  }

  /** Row i of the turned grid is column i read bottom to top, the way
      rotateGrid builds it. */
  lemma RotateRows(g: Grid, i: nat)
    requires IsGrid(g) && i < 4
    ensures Rotate(g)[i] == Reverse(Column(g, i))
  {
  }

  function RotateTimes(g: Grid, n: nat): (r: Grid)
    requires IsGrid(g)
    ensures IsGrid(r)
  {
    if n == 0 then g else Rotate(RotateTimes(g, n - 1))
  }

  lemma GridEq(a: Grid, b: Grid)
    requires IsGrid(a) && IsGrid(b)
    requires forall i, j :: 0 <= i < 4 && 0 <= j < 4 ==> a[i][j] == b[i][j]
    ensures a == b
  {
    forall i | 0 <= i < 4 ensures a[i] == b[i] {
    }
  }

  /** Four quarter turns are the identity. */
  lemma RotateFour(g: Grid)
    requires IsGrid(g)
    ensures RotateTimes(g, 4) == g
  {
    var r1 := RotateTimes(g, 1);
    var r2 := RotateTimes(g, 2);
    var r3 := RotateTimes(g, 3);
    var r4 := RotateTimes(g, 4);
    assert RotateTimes(g, 0) == g;
    assert r1 == Rotate(g);
    assert r2 == Rotate(r1);
    assert r3 == Rotate(r2);
    assert r4 == Rotate(r3);
    forall i, j | 0 <= i < 4 && 0 <= j < 4 ensures r4[i][j] == g[i][j] {
      calc {
        r4[i][j];
        r3[3 - j][i];
        r2[3 - i][3 - j];
        r1[j][3 - i];
        g[i][j];
      }
    }
    GridEq(r4, g);
  }

  lemma {:induction false} RotateAdd(g: Grid, a: nat, b: nat)
    requires IsGrid(g)
    ensures RotateTimes(RotateTimes(g, a), b) == RotateTimes(g, a + b)
  {
    if b > 0 {
      RotateAdd(g, a, b - 1);
    }
  }

  /** Turning k times and then (4 - k) % 4 times brings the grid back. */
  lemma RotateRoundTrip(g: Grid, k: nat)
    requires IsGrid(g) && k < 4
    ensures RotateTimes(RotateTimes(g, k), (4 - k) % 4) == g
  {
    if k == 0 {
      assert RotateTimes(RotateTimes(g, 0), 0) == g;
    } else {
      assert k + (4 - k) % 4 == 4;
      RotateAdd(g, k, (4 - k) % 4);
      RotateFour(g);
    }
  }

  lemma RotateTotal(g: Grid)
    requires IsGrid(g)
    ensures Total(Rotate(g)) == Total(g)
  {
    var r := Rotate(g);
    SumFour(g[0]); SumFour(g[1]); SumFour(g[2]); SumFour(g[3]);
    SumFour(r[0]); SumFour(r[1]); SumFour(r[2]); SumFour(r[3]);
  }

  lemma {:induction false} RotateTimesTotal(g: Grid, n: nat)
    requires IsGrid(g)
    ensures Total(RotateTimes(g, n)) == Total(g)
  {
    if n > 0 {
      RotateTimesTotal(g, n - 1);
      RotateTotal(RotateTimes(g, n - 1));
    }
  }

  // ---------------------------------------------------------------------------
  // Empty cells and the new tile

  /** The empty cells among the first k cells in row-major order, in that order. */
  function EmptyUpTo(g: Grid, k: nat): (e: seq<(nat, nat)>)
    requires IsGrid(g) && k <= 16
    ensures forall p {:trigger p in e} :: p in e <==> p.0 < 4 && p.1 < 4 && 4 * p.0 + p.1 < k && g[p.0][p.1] == 0
  {
    if k == 0 then []
    else EmptyUpTo(g, k - 1) + (if g[(k - 1) / 4][(k - 1) % 4] == 0 then [((k - 1) / 4, (k - 1) % 4)] else [])
  }

  /** Cell (row, col) is the next one in row-major order. */
  lemma EmptyStep(g: Grid, row: nat, col: nat)
    requires IsGrid(g) && row < 4 && col < 4
    ensures EmptyUpTo(g, 4 * row + col + 1) ==
            EmptyUpTo(g, 4 * row + col) + (if g[row][col] == 0 then [(row, col)] else [])
  {
    var k := 4 * row + col + 1;
    assert (k - 1) / 4 == row && (k - 1) % 4 == col;
  }

  function EmptyCells(g: Grid): seq<(nat, nat)>
    requires IsGrid(g)
  {
    EmptyUpTo(g, 16)
  }

  /** The list of empty cells is empty exactly when every cell holds a tile. */
  lemma EmptyCellsIff(g: Grid)
    requires IsGrid(g)
    ensures EmptyCells(g) != [] <==> exists i, j :: 0 <= i < 4 && 0 <= j < 4 && g[i][j] == 0
  {
    if exists i, j :: 0 <= i < 4 && 0 <= j < 4 && g[i][j] == 0 {
      var i, j :| 0 <= i < 4 && 0 <= j < 4 && g[i][j] == 0;
      assert (i, j) in EmptyCells(g);
    }
    if EmptyCells(g) != [] {
      assert EmptyCells(g)[0] in EmptyCells(g);
    }
  }

  /** The grid with v written into cell (i, j). */
  function Put(g: Grid, i: nat, j: nat, v: nat): (r: Grid)
    requires IsGrid(g) && i < 4 && j < 4
    ensures IsGrid(r) && r[i][j] == v
    ensures forall a, b :: 0 <= a < 4 && 0 <= b < 4 && (a, b) != (i, j) ==> r[a][b] == g[a][b]
  {
    var row: seq<nat> := g[i][j := v];
    g[i := row]
  }

  function Tile(four: bool): nat {
    if four then 4 else 2
  }

  /** The grid after addRandom's draw: the pick-th empty cell (modulo their
      number, in row-major order) gets the new tile. */
  function NewTile(g: Grid, pick: nat, four: bool): (r: Grid)
    requires IsGrid(g) && EmptyCells(g) != []
    ensures IsGrid(r)
    ensures exists i, j :: 0 <= i < 4 && 0 <= j < 4 && g[i][j] == 0 && r == Put(g, i, j, Tile(four))
    ensures Total(r) == Total(g) + Tile(four)
    ensures |EmptyCells(r)| == |EmptyCells(g)| - 1
  {
    var cell := EmptyCells(g)[pick % |EmptyCells(g)|];
    assert cell in EmptyCells(g);
    PutTotal(g, cell.0, cell.1, Tile(four));
    PutEmptyCount(g, cell.0, cell.1, Tile(four), 16);
    Put(g, cell.0, cell.1, Tile(four))
  }

  lemma PutTotal(g: Grid, i: nat, j: nat, v: nat)
    requires IsGrid(g) && i < 4 && j < 4 && g[i][j] == 0
    ensures Total(Put(g, i, j, v)) == Total(g) + v
  {
    var r := Put(g, i, j, v);
    SumFour(g[0]); SumFour(g[1]); SumFour(g[2]); SumFour(g[3]);
    SumFour(r[0]); SumFour(r[1]); SumFour(r[2]); SumFour(r[3]);
  }

  /** Filling an empty cell with a tile leaves one empty cell fewer. */
  lemma {:induction false} PutEmptyCount(g: Grid, i: nat, j: nat, v: nat, k: nat)
    requires IsGrid(g) && i < 4 && j < 4 && g[i][j] == 0 && v > 0 && k <= 16
    ensures |EmptyUpTo(Put(g, i, j, v), k)| == if 4 * i + j < k then |EmptyUpTo(g, k)| - 1 else |EmptyUpTo(g, k)|
  {
    if k > 0 {
      PutEmptyCount(g, i, j, v, k - 1);
      assert 4 * i + j == k - 1 ==> (k - 1) / 4 == i && (k - 1) % 4 == j;
    }
  }

  /** addRandom's inner loop: the empty cells of one row, in column order,
      appended to those of the rows above. */
  method CollectRow(g: Grid, row: nat, empty: seq<(nat, nat)>) returns (empty': seq<(nat, nat)>)
    requires IsGrid(g) && row < 4 && empty == EmptyUpTo(g, 4 * row)
    ensures empty' == EmptyUpTo(g, 4 * (row + 1))
  {
    empty' := empty;
    for col := 0 to 4
      invariant empty' == EmptyUpTo(g, 4 * row + col)
    {
      EmptyStep(g, row, col);
      if g[row][col] == 0 {
        empty' := empty' + [(row, col)];
      }
    }
  }

  /** addRandom on a fresh copy of the grid: the empty cells are listed in
      row-major order and the drawn one gets a 2, or a 4 when `four` (the
      one-in-ten draw) holds; with no empty cell nothing changes. */
  method AddRandom(g: Grid, pick: nat, four: bool) returns (r: Grid, added: bool)
    requires IsGrid(g)
    ensures IsGrid(r)
    ensures added <==> EmptyCells(g) != []
    ensures !added ==> r == g
    ensures added ==> r == NewTile(g, pick, four)
  {
    var empty: seq<(nat, nat)> := [];
    for row := 0 to 4
      invariant empty == EmptyUpTo(g, 4 * row)
    {
      empty := CollectRow(g, row, empty);
    }
    if |empty| > 0 {
      var cell := empty[pick % |empty|];
      assert cell in empty;
      r := Put(g, cell.0, cell.1, Tile(four));
      return r, true;
    }
    return g, false;
  }

  // ---------------------------------------------------------------------------
  // A move

  datatype Dir = Up | Down | Left | Right

  /** How many quarter turns bring the direction to the left. */
  function Rotations(dir: Dir): (k: nat)
    ensures k < 4
  {
    match dir
    case Up => 3
    case Right => 2
    case Down => 1
    case Left => 0
  }

  function SlideLeft(g: Grid): (r: Grid)
    requires IsGrid(g)
    ensures IsGrid(r) && forall i :: 0 <= i < 4 ==> r[i] == Slide(g[i])
  {
    seq(4, i requires 0 <= i < 4 => Slide(g[i]))
  }

  /** The merge points of the first n rows. */
  function RowsScore(g: Grid, n: nat): nat
    requires IsGrid(g) && n <= 4
  {
    if n == 0 then 0 else RowsScore(g, n - 1) + MergeScore(NonZero(g[n - 1]))
  }

  /** The grid after a move in dir, before the new tile. */
  function MoveResult(g: Grid, dir: Dir): Grid
    requires IsGrid(g)
  {
    var k := Rotations(dir);
    RotateTimes(SlideLeft(RotateTimes(g, k)), (4 - k) % 4)
  }

  function MoveScore(g: Grid, dir: Dir): nat
    requires IsGrid(g)
  {
    RowsScore(RotateTimes(g, Rotations(dir)), 4)
  }

  /** Some row, turned to the left, changes under the slide. */
  predicate Changes(g: Grid, dir: Dir)
    requires IsGrid(g)
  {
    var rot := RotateTimes(g, Rotations(dir));
    exists i :: 0 <= i < 4 && Slide(rot[i]) != rot[i]
  }

  lemma SlideLeftTotal(g: Grid)
    requires IsGrid(g)
    ensures Total(SlideLeft(g)) == Total(g)
  {
    SlideLayout(g[0]);
    SlideLayout(g[1]);
    SlideLayout(g[2]);
    SlideLayout(g[3]);
  }

  /** The move keeps the sum of the tiles. */
  lemma MoveTotal(g: Grid, dir: Dir)
    requires IsGrid(g)
    ensures Total(MoveResult(g, dir)) == Total(g)
  {
    var k := Rotations(dir);
    var rot := RotateTimes(g, k);
    RotateTimesTotal(g, k);
    SlideLeftTotal(rot);
    RotateTimesTotal(SlideLeft(rot), (4 - k) % 4);
  }

  /** A move changes the grid exactly when some turned row changes. */
  lemma MoveChangesIff(g: Grid, dir: Dir)
    requires IsGrid(g)
    ensures Changes(g, dir) <==> MoveResult(g, dir) != g
  {
    UnchangedMoveKeepsGrid(g, dir);
    KeptGridMeansUnchanged(g, dir);
  }

  lemma UnchangedMoveKeepsGrid(g: Grid, dir: Dir)
    requires IsGrid(g)
    ensures !Changes(g, dir) ==> MoveResult(g, dir) == g
  {
    var k := Rotations(dir);
    var rot := RotateTimes(g, k);
    if !Changes(g, dir) {
      assert SlideLeft(rot) == rot;
      RotateRoundTrip(g, k);
    }
  }

  lemma KeptGridMeansUnchanged(g: Grid, dir: Dir)
    requires IsGrid(g)
    ensures MoveResult(g, dir) == g ==> !Changes(g, dir)
  {
    var k := Rotations(dir);
    var rot := RotateTimes(g, k);
    var s := SlideLeft(rot);
    var b := (4 - k) % 4;
    // turning the moved grid k more times gives s back
    RotateAdd(s, b, k);
    if k == 0 {
      assert RotateTimes(s, b + k) == s;
    } else {
      assert b + k == 4;
      RotateFour(s);
    }
    if MoveResult(g, dir) == g {
      assert RotateTimes(RotateTimes(s, b), k) == rot;
      forall i | 0 <= i < 4 ensures Slide(rot[i]) == rot[i] {
        assert s[i] == Slide(rot[i]);
      }
    }
  }

  /** A row that changes under the slide ends with an empty cell. */
  lemma ChangedRowHasRoom(row: seq<nat>)
    requires |row| == 4 && Slide(row) != row
    ensures Slide(row)[3] == 0
  {
    SlideFullRow(row);
    SlideLayout(row);
  }

  /** When the merged tiles fill the row, nothing moved and nothing merged. */
  lemma SlideFullRow(row: seq<nat>)
    requires |row| == 4
    ensures |MergeLeft(NonZero(row))| == 4 ==> Slide(row) == row
  {
    var t := NonZero(row);
    NonZeroLength(row);
    MergeLeftLength(t);
    assert |MergeLeft(t)| == 4 ==> |t| == 4;
    assert Slide(row) == MergeLeft(t) + Zeros(4 - |MergeLeft(t)|);
  }

  /** A filter that drops nothing gives back the row. */
  lemma {:induction false} NonZeroLength(row: seq<nat>)
    ensures |NonZero(row)| == |row| ==> NonZero(row) == row
  {
    if row != [] {
      NonZeroLength(row[1..]);
      assert row == [row[0]] + row[1..];
    }
  }

  /** A scan that keeps the number of tiles merges nothing. */
  lemma {:induction false} MergeLeftLength(t: seq<nat>)
    ensures |MergeLeft(t)| == |t| ==> MergeLeft(t) == t
    decreases |t|
  {
    if |t| >= 2 {
      if t[0] == t[1] {
        MergeLeftLength(t[2..]);
      } else {
        MergeLeftLength(t[1..]);
        assert t == [t[0]] + t[1..];
      }
    }
  }

  /** A move that changes something leaves room for the new tile. */
  lemma ChangedMoveHasRoom(g: Grid, dir: Dir)
    requires IsGrid(g) && Changes(g, dir)
    ensures EmptyCells(MoveResult(g, dir)) != []
  {
    var k := Rotations(dir);
    var rot := RotateTimes(g, k);
    var s := SlideLeft(rot);
    var i :| 0 <= i < 4 && Slide(rot[i]) != rot[i];
    assert s[i][3] == 0 by { ChangedRowHasRoom(rot[i]); }
    // follow cell (i, 3) of s back through the (4 - k) % 4 turns
    var b := (4 - k) % 4;
    var r := RotateTimes(s, b);
    var a, c := EmptyCellAfterTurns(s, i, 3, b);
    assert r == MoveResult(g, dir);
    EmptyCellsIff(r);
  }

  /** An empty cell stays an empty cell, somewhere, under any number of turns. */
  lemma {:induction false} EmptyCellAfterTurns(s: Grid, i: nat, j: nat, n: nat) returns (a: nat, c: nat)
    requires IsGrid(s) && i < 4 && j < 4 && s[i][j] == 0
    ensures a < 4 && c < 4 && RotateTimes(s, n)[a][c] == 0
  {
    if n == 0 {
      a, c := i, j;
    } else {
      var a0, c0 := EmptyCellAfterTurns(s, i, j, n - 1);
      // Rotate(r)[c0][3 - a0] == r[a0][c0]
      a, c := c0, 3 - a0;
    }
  }

  /** The per-row loop of move on the turned grid: each row is slid, the
      merge points are added up, and moved records a merge or a changed row. */
  method SlideAllRows(rot: Grid) returns (next: Grid, currentScore: nat, moved: bool)
    requires IsGrid(rot)
    ensures next == SlideLeft(rot)
    ensures currentScore == RowsScore(rot, 4)
    ensures moved <==> exists i :: 0 <= i < 4 && Slide(rot[i]) != rot[i]
  {
    next := rot;
    moved := false;
    currentScore := 0;
    for r := 0 to 4
      invariant IsGrid(next)
      invariant forall i :: 0 <= i < r ==> next[i] == Slide(rot[i])
      invariant forall i :: r <= i < 4 ==> next[i] == rot[i]
      invariant currentScore == RowsScore(rot, r)
      invariant moved <==> exists i :: 0 <= i < r && Slide(rot[i]) != rot[i]
    {
      var newRow, gained, merged := SlideRow(next[r]);
      currentScore := currentScore + gained;
      if merged {
        MergeChangesRow(next[r]);
        moved := true;
      }
      if next[r] != newRow {
        moved := true;
      }
      next := next[r := newRow];
    }
    SlidRows(next, rot);
  }

  lemma SlidRows(next: Grid, rot: Grid)
    requires IsGrid(next) && IsGrid(rot)
    requires forall i :: 0 <= i < 4 ==> next[i] == Slide(rot[i])
    ensures next == SlideLeft(rot)
  {
  }

  /** The grid with no tiles. */
  function Blank(): (g: Grid)
    ensures IsGrid(g) && forall i, j :: 0 <= i < 4 && 0 <= j < 4 ==> g[i][j] == 0
  {
    var z: seq<nat> := [0, 0, 0, 0];
    [z, z, z, z]
  }

  /** The empty grid has sum 0 and lists all sixteen cells as empty. */
  lemma EmptyGridFacts()
    ensures IsGrid(Blank()) && Total(Blank()) == 0 && |EmptyCells(Blank())| == 16
  {
    SumFour(Blank()[0]);
    AllEmpty(Blank(), 16);
  }

  /** init's grid: a new tile for each of the two draws, on the empty grid.
      The two tiles land on different cells. */
  function Opening(pick1: nat, four1: bool, pick2: nat, four2: bool): (g: Grid)
    ensures IsGrid(g) && Total(g) == Tile(four1) + Tile(four2) && |EmptyCells(g)| == 14
  {
    EmptyGridFacts();
    NewTile(NewTile(Blank(), pick1, four1), pick2, four2)
  }

  /** A fresh grid of empty cells. */
  method EmptyGrid() returns (g: Grid)
    ensures g == Blank()
    ensures IsGrid(g) && Total(g) == 0 && |EmptyCells(g)| == 16
    ensures forall i, j :: 0 <= i < 4 && 0 <= j < 4 ==> g[i][j] == 0
  {
    var z: seq<nat> := [0, 0, 0, 0];
    SumFour(z);
    g := [z, z, z, z];
    AllEmpty(g, 16);
  }

  /** init's local grid: zeros, then addRandom twice. */
  method NewGrid(pick1: nat, four1: bool, pick2: nat, four2: bool) returns (g: Grid)
    ensures g == Opening(pick1, four1, pick2, four2)
  {
    var g0 := EmptyGrid();
    var g1, added1 := AddRandom(g0, pick1, four1);
    assert added1 && |EmptyCells(g1)| == 15;
    var added2;
    g, added2 := AddRandom(g1, pick2, four2);
  }

  /** move's grid updater: turn the grid so the move goes left, slide every
      row, turn back, and when something moved add a tile; whether something
      moved and the points gained come back alongside. */
  method NextGrid(g: Grid, dir: Dir, pick: nat, four: bool) returns (next: Grid, gained: nat, moved: bool)
    requires IsGrid(g)
    ensures IsGrid(next)
    ensures moved <==> Changes(g, dir)
    ensures !moved ==> next == g
    ensures moved ==> EmptyCells(MoveResult(g, dir)) != []
    ensures moved ==> next == NewTile(MoveResult(g, dir), pick, four) && gained == MoveScore(g, dir)
    ensures moved ==> Total(next) == Total(g) + Tile(four)
  {
    var k := Rotations(dir);
    var rot := RotateTimes(g, k);
    next, gained, moved := SlideAllRows(rot);
    assert gained == MoveScore(g, dir);
    assert moved <==> Changes(g, dir);
    next := RotateTimes(next, (4 - k) % 4);
    assert next == MoveResult(g, dir);
    if moved {
      ChangedMoveHasRoom(g, dir);
      MoveTotal(g, dir);
      var added;
      next, added := AddRandom(next, pick, four);
    } else {
      UnchangedMoveKeepsGrid(g, dir);
    }
  }

  /** On a grid without tiles every cell is listed as empty. */
  lemma {:induction false} AllEmpty(g: Grid, k: nat)
    requires IsGrid(g) && k <= 16
    requires forall i, j :: 0 <= i < 4 && 0 <= j < 4 ==> g[i][j] == 0
    ensures |EmptyUpTo(g, k)| == k
  {
    if k > 0 {
      AllEmpty(g, k - 1);
    }
  }

  class Game2048 {
    var grid: Grid
    var score: nat

    ghost predicate Valid()
      reads this
    {
      IsGrid(grid)
    }

    /** The mount effect runs init. */
    constructor (pick1: nat, four1: bool, pick2: nat, four2: bool)
      ensures Valid() && score == 0
      ensures grid == Opening(pick1, four1, pick2, four2)
      ensures Total(grid) == Tile(four1) + Tile(four2) && |EmptyCells(grid)| == 14
    {
      grid, score := [], 0;
      new;
      Init(pick1, four1, pick2, four2);
    }

    /** init (the New Game button): two new tiles on an empty grid, score 0. */
    method Init(pick1: nat, four1: bool, pick2: nat, four2: bool)
      modifies this
      ensures Valid() && score == 0
      ensures grid == Opening(pick1, four1, pick2, four2)
      ensures Total(grid) == Tile(four1) + Tile(four2) && |EmptyCells(grid)| == 14
    {
      grid := NewGrid(pick1, four1, pick2, four2);
      score := 0;
    }

    /** move(dir); pick and four are the draws of addRandom. */
    method Move(dir: Dir, pick: nat, four: bool)
      requires Valid()
      modifies this
      ensures Valid()
      ensures !Changes(old(grid), dir) ==> grid == old(grid) && score == old(score)
      ensures Changes(old(grid), dir) ==> EmptyCells(MoveResult(old(grid), dir)) != []
      ensures Changes(old(grid), dir) ==>
                grid == NewTile(MoveResult(old(grid), dir), pick, four) &&
                score == old(score) + MoveScore(old(grid), dir)
      ensures Changes(old(grid), dir) ==> Total(grid) == Total(old(grid)) + Tile(four)
    {
      var next, currentScore, moved := NextGrid(grid, dir, pick, four);
      if moved {
        score := score + currentScore;
      }
      grid := next;
    }
  }
}
