// Sudoku on a 9 x 9 grid.  A puzzle is an 81-digit string read row by row,
// 0 for an empty cell; non-zero digits are the givens, which input never
// changes.  After every input each cell that repeats a value of another cell
// in its row, column or 3 x 3 box is marked as a mistake, and a full grid
// without mistakes is solved.

module Sudoku {
  import opened Wrappers

  /** The built-in puzzles, each written here as its nine rows joined. */
  const PUZZLES: seq<string> := [
    "530070000" + "600195000" + "098000060" + "800060003" + "400803001" +
      "700020006" + "060000280" + "000419005" + "000080079",
    "000260701" + "680070090" + "190004500" + "820100040" + "004602900" +
      "050003028" + "009300074" + "040050036" + "703018000",
    "020608000" + "580009700" + "000040000" + "370000500" + "600000004" +
      "008000013" + "000020000" + "009800036" + "000306090",
    "000000000" + "000003085" + "001020000" + "000507000" + "004000100" +
      "090000000" + "500000073" + "002010000" + "000040009"
  ]

  type Grid = seq<seq<nat>>
  type Marks = seq<seq<bool>>

  /** A cell, as (row, column). */
  type Pos = (nat, nat)

  predicate IsGrid(g: Grid) {
    |g| == 9 && forall r :: 0 <= r < 9 ==> |g[r]| == 9
  }

  predicate IsMarks(m: Marks) {
    |m| == 9 && forall r :: 0 <= r < 9 ==> |m[r]| == 9
  }

  predicate OnGrid(p: Pos) {
    p.0 < 9 && p.1 < 9
  }

  // ---------------------------------------------------------------------------
  // Puzzle strings

  predicate IsDigit(ch: char) {
    '0' <= ch <= '9'
  }

  /** The value parseInt gives a single decimal digit. */
  function Digit(ch: char): (d: nat)
    requires IsDigit(ch)
    ensures d <= 9
  {
    ch as int - '0' as int
  }

  function DigitChar(d: nat): (ch: char)
    requires d <= 9
    ensures IsDigit(ch) && Digit(ch) == d
  {
    ('0' as int + d) as char
  }

  /** Eighty-one decimal digits. */
  predicate IsPuzzle(raw: string) {
    |raw| == 81 && forall i :: 0 <= i < 81 ==> IsDigit(raw[i])
  }

  predicate AllDigits(s: string) {
    forall i :: 0 <= i < |s| ==> IsDigit(s[i])
  }

  lemma Joined(a: string, b: string)
    requires AllDigits(a) && AllDigits(b)
    ensures AllDigits(a + b)
  {
  }

  /** Nine rows of nine digits make a puzzle string. */
  lemma NineRows(r0: string, r1: string, r2: string, r3: string, r4: string,
                 r5: string, r6: string, r7: string, r8: string)
    requires |r0| == |r1| == |r2| == |r3| == |r4| == |r5| == |r6| == |r7| == |r8| == 9
    requires AllDigits(r0) && AllDigits(r1) && AllDigits(r2) && AllDigits(r3) && AllDigits(r4)
    requires AllDigits(r5) && AllDigits(r6) && AllDigits(r7) && AllDigits(r8)
    ensures IsPuzzle(r0 + r1 + r2 + r3 + r4 + r5 + r6 + r7 + r8)
  {
    Joined(r0, r1);
    Joined(r0 + r1, r2);
    Joined(r0 + r1 + r2, r3);
    Joined(r0 + r1 + r2 + r3, r4);
    Joined(r0 + r1 + r2 + r3 + r4, r5);
    Joined(r0 + r1 + r2 + r3 + r4 + r5, r6);
    Joined(r0 + r1 + r2 + r3 + r4 + r5 + r6, r7);
    Joined(r0 + r1 + r2 + r3 + r4 + r5 + r6 + r7, r8);
  }

  /** Every built-in puzzle is eighty-one decimal digits. */
  lemma PuzzlesWellFormed()
    ensures forall k :: 0 <= k < |PUZZLES| ==> IsPuzzle(PUZZLES[k])
  {
    Puzzle0();
    Puzzle1();
    Puzzle2();
    Puzzle3();
  }

  lemma Puzzle0()
    ensures IsPuzzle(PUZZLES[0])
  {
    NineRows("530070000", "600195000", "098000060", "800060003", "400803001",
             "700020006", "060000280", "000419005", "000080079");
  }

  lemma Puzzle1()
    ensures IsPuzzle(PUZZLES[1])
  {
    NineRows("000260701", "680070090", "190004500", "820100040", "004602900",
             "050003028", "009300074", "040050036", "703018000");
  }

  lemma Puzzle2()
    ensures IsPuzzle(PUZZLES[2])
  {
    NineRows("020608000", "580009700", "000040000", "370000500", "600000004",
             "008000013", "000020000", "009800036", "000306090");
  }

  lemma Puzzle3()
    ensures IsPuzzle(PUZZLES[3])
  {
    NineRows("000000000", "000003085", "001020000", "000507000", "004000100",
             "090000000", "500000073", "002010000", "000040009");
  }

  /** The grid loadPuzzle fills in by the time it has read the first n
      characters: cell (r, c) holds digit 9 r + c once read, 0 before. */
  function GridPart(raw: string, n: int): (g: Grid)
    requires IsPuzzle(raw)
    ensures IsGrid(g)
  {
    seq(9, r requires 0 <= r < 9 => RowPart(raw, r, n))
  }

  function RowPart(raw: string, r: nat, n: int): (row: seq<nat>)
    requires IsPuzzle(raw) && r < 9
    ensures |row| == 9
  {
    seq(9, c requires 0 <= c < 9 => CellPart(raw, r, c, n))
  }

  function CellPart(raw: string, r: nat, c: nat, n: int): nat
    requires IsPuzzle(raw) && r < 9 && c < 9
  {
    if 9 * r + c < n then Digit(raw[9 * r + c]) else 0
  }

  /** The givens loadPuzzle marks by then: the cells read with a non-zero digit. */
  function GivenPart(raw: string, n: int): (m: Marks)
    requires IsPuzzle(raw)
    ensures IsMarks(m)
  {
    seq(9, r requires 0 <= r < 9 =>
      seq(9, c requires 0 <= c < 9 => 9 * r + c < n && raw[9 * r + c] != '0'))
  }

  /** The grid a puzzle string stands for. */
  function Parse(raw: string): (g: Grid)
    requires IsPuzzle(raw)
    ensures IsGrid(g)
  {
    GridPart(raw, 81)
  }

  /** Its givens. */
  function Givens(raw: string): (m: Marks)
    requires IsPuzzle(raw)
    ensures IsMarks(m)
  {
    GivenPart(raw, 81)
  }

  predicate IsDigitGrid(g: Grid) {
    IsGrid(g) && forall r, c :: 0 <= r < 9 && 0 <= c < 9 ==> g[r][c] <= 9
  }

  /** The grid written out row by row, one digit per cell. */
  function Serialise(g: Grid): (raw: string)
    requires IsDigitGrid(g)
    ensures |raw| == 81
  {
    seq(81, i requires 0 <= i < 81 => DigitChar(g[i / 9][i % 9]))
  }

  /** Character i of the string lands in cell (i div 9, i mod 9); a cell is a
      given exactly when its digit is not 0; and writing the grid out row by
      row gives back the string. */
  lemma ParseSerialise(raw: string)
    requires IsPuzzle(raw)
    ensures IsDigitGrid(Parse(raw))
    ensures forall i :: 0 <= i < 81 ==> Parse(raw)[i / 9][i % 9] == Digit(raw[i])
    ensures forall r, c :: 0 <= r < 9 && 0 <= c < 9 ==> (Givens(raw)[r][c] <==> Parse(raw)[r][c] != 0)
    ensures Serialise(Parse(raw)) == raw
  {
    var g := Parse(raw);
    forall i | 0 <= i < 81 ensures g[i / 9][i % 9] == Digit(raw[i]) {
      assert 9 * (i / 9) + i % 9 == i;
    }
    var s := Serialise(g);
    forall i | 0 <= i < 81 ensures s[i] == raw[i] {
      assert 9 * (i / 9) + i % 9 == i;
    }
  }

  /** Reading a grid of digits back from its string gives the same grid. */
  lemma SerialiseParse(g: Grid)
    requires IsDigitGrid(g)
    ensures IsPuzzle(Serialise(g)) && Parse(Serialise(g)) == g
  {
    var raw := Serialise(g);
    var h := Parse(raw);
    forall r | 0 <= r < 9 ensures h[r] == g[r] {
      forall c | 0 <= c < 9 ensures h[r][c] == g[r][c] {
        var i := 9 * r + c;
        assert i / 9 == r && i % 9 == c;
      }
    }
  }

  /** The grid with cell (r, c) set to v. */
  function SetCell(g: Grid, r: nat, c: nat, v: nat): Grid
    requires r < |g| && c < |g[r]|
  {
    var row: seq<nat> := g[r][c := v];
    g[r := row]
  }

  function SetMark(m: Marks, r: nat, c: nat, b: bool): Marks
    requires r < |m| && c < |m[r]|
  {
    m[r := m[r][c := b]]
  }

  /** One character of loadPuzzle's loop: character i goes to cell (i div 9, i mod 9). */
  lemma ParseStep(raw: string, i: nat)
    requires IsPuzzle(raw) && i < 81
    ensures SetCell(GridPart(raw, i), i / 9, i % 9, Digit(raw[i])) == GridPart(raw, i + 1)
    ensures SetMark(GivenPart(raw, i), i / 9, i % 9, Digit(raw[i]) != 0) == GivenPart(raw, i + 1)
  {
    var g, g' := GridPart(raw, i), GridPart(raw, i + 1);
    var m, m' := GivenPart(raw, i), GivenPart(raw, i + 1);
    assert 9 * (i / 9) + i % 9 == i;
    forall r | 0 <= r < 9
      ensures SetCell(g, i / 9, i % 9, Digit(raw[i]))[r] == g'[r]
      ensures SetMark(m, i / 9, i % 9, Digit(raw[i]) != 0)[r] == m'[r]
    {
    }
  }

  // ---------------------------------------------------------------------------
  // Rows, columns and boxes

  /** isRelated for the selected cell sel: another cell in its row, its
      column or its 3 x 3 box. */
  predicate Related(sel: Pos, r: nat, c: nat)
    requires OnGrid(sel) && r < 9 && c < 9
  {
    !(sel.0 == r && sel.1 == c) &&
    (sel.0 == r || sel.1 == c || (Third(sel.0) == Third(r) && Third(sel.1) == Third(c)))
  }

  /** x div 3 on the grid's range, written out by cases. */
  function Third(x: nat): (t: nat)
    requires x < 9
    ensures t < 3
  {
    if x < 3 then 0 else if x < 6 then 1 else 2
  }

  /** Third is the source's floor(x / 3), and x - 3 Third(x) its x mod 3. */
  lemma ThirdIsDiv(x: nat)
    requires x < 9
    ensures Third(x) == x / 3 && x - 3 * Third(x) == x % 3
  {
  }

  /** The cells of row i, left to right. */
  function RowUnit(i: nat): (u: seq<Pos>)
    ensures |u| == 9
  {
    seq(9, j requires 0 <= j < 9 => (i, j as nat))
  }

  /** The cells of column i, top to bottom. */
  function ColUnit(i: nat): (u: seq<Pos>)
    ensures |u| == 9
  {
    seq(9, j requires 0 <= j < 9 => (j as nat, i))
  }

  /** The cells of box b (boxes numbered row by row), in checkMistakes'
      order: row by row inside the box. */
  function BoxUnit(b: nat): (u: seq<Pos>)
    requires b < 9
    ensures |u| == 9
  {
    seq(9, k requires 0 <= k < 9 => (3 * Third(b) + Third(k), 3 * (b - 3 * Third(b)) + (k - 3 * Third(k))))
  }

  function RowUnits(): seq<seq<Pos>> {
    seq(9, i requires 0 <= i < 9 => RowUnit(i))
  }

  function ColUnits(): seq<seq<Pos>> {
    seq(9, i requires 0 <= i < 9 => ColUnit(i))
  }

  function BoxUnits(): seq<seq<Pos>> {
    seq(9, b requires 0 <= b < 9 => BoxUnit(b))
  }

  predicate UnitOnGrid(u: seq<Pos>) {
    |u| == 9 && forall a :: 0 <= a < 9 ==> OnGrid(u[a])
  }

  /** The box holding cell (r, c), and the cell's place in it. */
  function BoxOf(r: nat, c: nat): (b: nat)
    requires r < 9 && c < 9
    ensures b < 9
  {
    3 * Third(r) + Third(c)
  }

  function PlaceInBox(r: nat, c: nat): (a: nat)
    requires r < 9 && c < 9
    ensures a < 9
  {
    3 * (r - 3 * Third(r)) + (c - 3 * Third(c))
  }

  /** Cell (r, c) is entry PlaceInBox(r, c) of box BoxOf(r, c). */
  lemma BoxIndex(r: nat, c: nat)
    requires r < 9 && c < 9
    ensures BoxUnit(BoxOf(r, c))[PlaceInBox(r, c)] == (r, c)
  {
    var b, a := BoxOf(r, c), PlaceInBox(r, c);
    assert Third(b) == Third(r) && b - 3 * Third(b) == Third(c);
    assert Third(a) == r - 3 * Third(r) && a - 3 * Third(a) == c - 3 * Third(c);
  }

  /** Every entry of box b lies on the grid, in box b, at its own place. */
  lemma BoxEntries(b: nat)
    requires b < 9
    ensures UnitOnGrid(BoxUnit(b))
    ensures forall a :: 0 <= a < 9 ==>
              BoxOf(BoxUnit(b)[a].0, BoxUnit(b)[a].1) == b && PlaceInBox(BoxUnit(b)[a].0, BoxUnit(b)[a].1) == a
  {
  }

  lemma UnitsOnGrid()
    ensures forall i :: 0 <= i < 9 ==> UnitOnGrid(RowUnits()[i]) && UnitOnGrid(ColUnits()[i]) && UnitOnGrid(BoxUnits()[i])
  {
    forall i | 0 <= i < 9 ensures UnitOnGrid(BoxUnits()[i]) {
      BoxEntries(i);
    }
  }

  lemma RowMembers(i: nat, p: Pos)
    ensures p in RowUnit(i) <==> p.0 == i && p.1 < 9
  {
    if p.0 == i && p.1 < 9 {
      assert RowUnit(i)[p.1] == p;
    }
  }

  lemma ColMembers(i: nat, p: Pos)
    ensures p in ColUnit(i) <==> p.1 == i && p.0 < 9
  {
    if p.1 == i && p.0 < 9 {
      assert ColUnit(i)[p.0] == p;
    }
  }

  lemma BoxMembers(b: nat, p: Pos)
    requires b < 9
    ensures p in BoxUnit(b) <==> OnGrid(p) && BoxOf(p.0, p.1) == b
  {
    BoxEntries(b);
    if OnGrid(p) && BoxOf(p.0, p.1) == b {
      BoxIndex(p.0, p.1);
    }
  }

  /** Some row, column or box holds both cells. */
  predicate ShareUnit(p: Pos, q: Pos) {
    exists i :: 0 <= i < 9 && ((p in RowUnit(i) && q in RowUnit(i)) ||
                               (p in ColUnit(i) && q in ColUnit(i)) ||
                               (p in BoxUnit(i) && q in BoxUnit(i)))
  }

  /** Two cells share a box exactly when they share both bands. */
  lemma SameBox(r: nat, c: nat, r': nat, c': nat)
    requires r < 9 && c < 9 && r' < 9 && c' < 9
    ensures BoxOf(r, c) == BoxOf(r', c') <==> Third(r) == Third(r') && Third(c) == Third(c')
  {
  }

  lemma SharedUnitRelated(p: Pos, q: Pos)
    requires OnGrid(p) && OnGrid(q) && p != q && ShareUnit(p, q)
    ensures Related(p, q.0, q.1)
  {
    var i :| 0 <= i < 9 && ((p in RowUnit(i) && q in RowUnit(i)) ||
                            (p in ColUnit(i) && q in ColUnit(i)) ||
                            (p in BoxUnit(i) && q in BoxUnit(i)));
    RowMembers(i, p);
    RowMembers(i, q);
    ColMembers(i, p);
    ColMembers(i, q);
    BoxMembers(i, p);
    BoxMembers(i, q);
    SameBox(p.0, p.1, q.0, q.1);
  }

  lemma RelatedSharedUnit(p: Pos, q: Pos)
    requires OnGrid(p) && OnGrid(q) && Related(p, q.0, q.1)
    ensures p != q && ShareUnit(p, q)
  {
    if p.0 == q.0 {
      RowMembers(p.0, p);
      RowMembers(p.0, q);
    } else if p.1 == q.1 {
      ColMembers(p.1, p);
      ColMembers(p.1, q);
    } else {
      var b := BoxOf(p.0, p.1);
      SameBox(p.0, p.1, q.0, q.1);
      BoxMembers(b, p);
      BoxMembers(b, q);
    }
  }

  /** isRelated holds exactly for two different cells that some row, column
      or box of the grid holds together, and it is symmetric. */
  lemma RelatedIffSharedUnit(p: Pos, q: Pos)
    requires OnGrid(p) && OnGrid(q)
    ensures Related(p, q.0, q.1) <==> p != q && ShareUnit(p, q)
    ensures Related(p, q.0, q.1) <==> Related(q, p.0, p.1)
  {
    if p != q && ShareUnit(p, q) {
      SharedUnitRelated(p, q);
    }
    if Related(p, q.0, q.1) {
      RelatedSharedUnit(p, q);
    }
  }

  // ---------------------------------------------------------------------------
  // Mistakes

  /** The value in cell p; nothing lies off the grid. */
  function Val(g: Grid, p: Pos): nat
    requires IsGrid(g)
  {
    if OnGrid(p) then g[p.0][p.1] else 0
  }

  /** A cell is a mistake when it holds a value and a related cell holds the
      same value. */
  ghost predicate Mistake(g: Grid, r: nat, c: nat)
    requires IsGrid(g) && r < 9 && c < 9
  {
    g[r][c] != 0 &&
    exists r': nat, c': nat :: r' < 9 && c' < 9 && Related((r, c), r', c') && g[r'][c'] == g[r][c]
  }

  ghost function Mistakes(g: Grid): set<Pos>
    requires IsGrid(g)
  {
    set r: nat, c: nat | r < 9 && c < 9 && Mistake(g, r, c) :: (r, c)
  }

  /** The cells among the first k of unit u whose value appears again among
      those k. */
  ghost function DupsIn(g: Grid, u: seq<Pos>, k: nat): set<Pos>
    requires IsGrid(g) && k <= |u|
  {
    set a | 0 <= a < k && Val(g, u[a]) != 0 && Again(g, u, k, a) :: u[a]
  }

  /** Another of the first k cells of unit u holds the value of cell a. */
  ghost predicate Again(g: Grid, u: seq<Pos>, k: nat, a: nat)
    requires IsGrid(g) && a < k <= |u|
  {
    exists b :: 0 <= b < k && b != a && Val(g, u[b]) == Val(g, u[a])
  }

  /** What the map of one scan holds after k cells of unit u: every value
      met so far, each with a cell of the unit that holds it. */
  ghost predicate Seen(g: Grid, u: seq<Pos>, k: nat, m: map<nat, Pos>)
    requires IsGrid(g) && k <= |u|
  {
    (forall v :: v in m ==> v != 0 && exists a :: 0 <= a < k && u[a] == m[v] && Val(g, u[a]) == v) &&
    (forall a :: 0 <= a < k && Val(g, u[a]) != 0 ==> Val(g, u[a]) in m)
  }

  /** Cell k - 1 of a scan keeps the map faithful: a non-zero value is
      remembered with this cell. */
  lemma SeenStep(g: Grid, u: seq<Pos>, k: nat, m: map<nat, Pos>)
    requires IsGrid(g) && 0 < k <= |u| && Seen(g, u, k - 1, m)
    ensures var v := Val(g, u[k - 1]);
            Seen(g, u, k, if v == 0 then m else m[v := u[k - 1]])
  {
  }

  /** Cell k - 1 of a scan: a value met before marks this cell and the cell
      the map remembers. */
  lemma DupsStep(g: Grid, u: seq<Pos>, k: nat, m: map<nat, Pos>)
    requires IsGrid(g) && 0 < k <= |u| && Seen(g, u, k - 1, m)
    ensures var v := Val(g, u[k - 1]);
            DupsIn(g, u, k) == if v != 0 && v in m then DupsIn(g, u, k - 1) + {u[k - 1], m[v]} else DupsIn(g, u, k - 1)
  {
    var v := Val(g, u[k - 1]);
    if v != 0 && v in m {
      DupsGrow(g, u, k, m);
    } else {
      DupsSame(g, u, k, m);
    }
  }

  lemma DupsGrow(g: Grid, u: seq<Pos>, k: nat, m: map<nat, Pos>)
    requires IsGrid(g) && 0 < k <= |u| && Seen(g, u, k - 1, m)
    requires Val(g, u[k - 1]) != 0 && Val(g, u[k - 1]) in m
    ensures DupsIn(g, u, k) == DupsIn(g, u, k - 1) + {u[k - 1], m[Val(g, u[k - 1])]}
  {
    DupsGrowInto(g, u, k, m);
    DupsGrowFrom(g, u, k, m);
  }

  lemma DupsGrowInto(g: Grid, u: seq<Pos>, k: nat, m: map<nat, Pos>)
    requires IsGrid(g) && 0 < k <= |u| && Seen(g, u, k - 1, m)
    requires Val(g, u[k - 1]) != 0 && Val(g, u[k - 1]) in m
    ensures DupsIn(g, u, k) <= DupsIn(g, u, k - 1) + {u[k - 1], m[Val(g, u[k - 1])]}
  {
    var v := Val(g, u[k - 1]);
    var a0 :| 0 <= a0 < k - 1 && u[a0] == m[v] && Val(g, u[a0]) == v;
    forall p | p in DupsIn(g, u, k) ensures p in DupsIn(g, u, k - 1) + {u[k - 1], m[v]} {
      var a :| 0 <= a < k && Val(g, u[a]) != 0 && u[a] == p && Again(g, u, k, a);
      if a < k - 1 && a != a0 {
        if Val(g, u[a]) == v {
          assert Again(g, u, k - 1, a) by { assert Val(g, u[a0]) == Val(g, u[a]); }
        } else {
          var b :| 0 <= b < k && b != a && Val(g, u[b]) == Val(g, u[a]);
          assert Again(g, u, k - 1, a) by { assert b < k - 1; }
        }
      }
    }
  }

  lemma DupsGrowFrom(g: Grid, u: seq<Pos>, k: nat, m: map<nat, Pos>)
    requires IsGrid(g) && 0 < k <= |u| && Seen(g, u, k - 1, m)
    requires Val(g, u[k - 1]) != 0 && Val(g, u[k - 1]) in m
    ensures DupsIn(g, u, k - 1) + {u[k - 1], m[Val(g, u[k - 1])]} <= DupsIn(g, u, k)
  {
    var v := Val(g, u[k - 1]);
    var a0 :| 0 <= a0 < k - 1 && u[a0] == m[v] && Val(g, u[a0]) == v;
    forall p | p in DupsIn(g, u, k - 1) ensures p in DupsIn(g, u, k) {
      var a :| 0 <= a < k - 1 && Val(g, u[a]) != 0 && u[a] == p && Again(g, u, k - 1, a);
      var b :| 0 <= b < k - 1 && b != a && Val(g, u[b]) == Val(g, u[a]);
      assert Again(g, u, k, a);
    }
    assert Again(g, u, k, a0) by { assert Val(g, u[k - 1]) == Val(g, u[a0]); }
    assert Again(g, u, k, k - 1) by { assert Val(g, u[a0]) == Val(g, u[k - 1]); }
  }

  lemma DupsSame(g: Grid, u: seq<Pos>, k: nat, m: map<nat, Pos>)
    requires IsGrid(g) && 0 < k <= |u| && Seen(g, u, k - 1, m)
    requires !(Val(g, u[k - 1]) != 0 && Val(g, u[k - 1]) in m)
    ensures DupsIn(g, u, k) == DupsIn(g, u, k - 1)
  {
    forall p | p in DupsIn(g, u, k) ensures p in DupsIn(g, u, k - 1) {
      var a :| 0 <= a < k && Val(g, u[a]) != 0 && u[a] == p && Again(g, u, k, a);
      var b :| 0 <= b < k && b != a && Val(g, u[b]) == Val(g, u[a]);
      assert a < k - 1 && b < k - 1;
      assert Again(g, u, k - 1, a);
    }
    forall p | p in DupsIn(g, u, k - 1) ensures p in DupsIn(g, u, k) {
      var a :| 0 <= a < k - 1 && Val(g, u[a]) != 0 && u[a] == p && Again(g, u, k - 1, a);
      var b :| 0 <= b < k - 1 && b != a && Val(g, u[b]) == Val(g, u[a]);
      assert Again(g, u, k, a);
    }
  }

  /** The scan of the first k cells of unit u, as checkMistakes runs it: the
      map from each value met to the last cell holding it, and the cells
      marked so far. */
  ghost function Scan(g: Grid, u: seq<Pos>, k: nat): (map<nat, Pos>, set<Pos>)
    requires IsGrid(g) && k <= |u|
  {
    if k == 0 then (map[], {})
    else
      var prev := Scan(g, u, k - 1);
      var v := Val(g, u[k - 1]);
      if v == 0 then prev
      else if v in prev.0 then (prev.0[v := u[k - 1]], prev.1 + {u[k - 1], prev.0[v]})
      else (prev.0[v := u[k - 1]], prev.1)
  }

  /** One more cell of a scan. */
  lemma ScanNext(g: Grid, u: seq<Pos>, k: nat)
    requires IsGrid(g) && k < |u|
    ensures var prev, v := Scan(g, u, k), Val(g, u[k]);
            Scan(g, u, k + 1) ==
              if v == 0 then prev
              else if v in prev.0 then (prev.0[v := u[k]], prev.1 + {u[k], prev.0[v]})
              else (prev.0[v := u[k]], prev.1)
  {
  }

  /** The scan's map holds, for each value met, a cell of the unit with it. */
  lemma {:induction false} ScanSeen(g: Grid, u: seq<Pos>, k: nat)
    requires IsGrid(g) && k <= |u|
    ensures Seen(g, u, k, Scan(g, u, k).0)
  {
    if k > 0 {
      ScanSeen(g, u, k - 1);
      var m, v := Scan(g, u, k - 1).0, Val(g, u[k - 1]);
      assert Scan(g, u, k).0 == if v == 0 then m else m[v := u[k - 1]];
      SeenStep(g, u, k, m);
    }
  }

  /** The scan marks exactly the cells whose value appears again among those
      scanned. */
  lemma {:induction false} ScanDups(g: Grid, u: seq<Pos>, k: nat)
    requires IsGrid(g) && k <= |u|
    ensures Scan(g, u, k).1 == DupsIn(g, u, k)
  {
    if k > 0 {
      ScanDups(g, u, k - 1);
      ScanSeen(g, u, k - 1);
      var m, v := Scan(g, u, k - 1).0, Val(g, u[k - 1]);
      assert Scan(g, u, k).1 == if v != 0 && v in m then Scan(g, u, k - 1).1 + {u[k - 1], m[v]} else Scan(g, u, k - 1).1;
      DupsStep(g, u, k, m);
    }
  }

  /** Entry 3 i + j of box b is the cell checkMistakes computes for it. */
  lemma BoxCell(b: nat, i: nat, j: nat)
    requires b < 9 && i < 3 && j < 3
    ensures BoxUnit(b)[3 * i + j] == (b / 3 * 3 + i, b % 3 * 3 + j)
  {
    ThirdIsDiv(b);
    assert Third(3 * i + j) == i;
  }

  /** The cells marked by the scans of the first n units. */
  ghost function Found(g: Grid, units: seq<seq<Pos>>, n: nat): set<Pos>
    requires IsGrid(g) && n <= |units| && forall i :: 0 <= i < n ==> |units[i]| == 9
  {
    set i, p | 0 <= i < n && p in DupsIn(g, units[i], 9) :: p
  }

  lemma FoundNext(g: Grid, units: seq<seq<Pos>>, n: nat)
    requires IsGrid(g) && n < |units| && forall i :: 0 <= i <= n ==> |units[i]| == 9
    ensures Found(g, units, n + 1) == Found(g, units, n) + DupsIn(g, units[n], 9)
  {
  }

  lemma FoundNone(g: Grid, units: seq<seq<Pos>>)
    requires IsGrid(g)
    ensures Found(g, units, 0) == {}
  {
  }

  /** A cell a row scan marks is a mistake. */
  lemma RowMarkIsMistake(g: Grid, i: nat, p: Pos)
    requires IsGrid(g) && i < 9 && p in DupsIn(g, RowUnit(i), 9)
    ensures OnGrid(p) && Mistake(g, p.0, p.1)
  {
    var u := RowUnit(i);
    var a :| 0 <= a < 9 && u[a] == p && Val(g, u[a]) != 0 && Again(g, u, 9, a);
    var b :| 0 <= b < 9 && b != a && Val(g, u[b]) == Val(g, u[a]);
    assert Related(p, i, b);
  }

  lemma ColMarkIsMistake(g: Grid, i: nat, p: Pos)
    requires IsGrid(g) && i < 9 && p in DupsIn(g, ColUnit(i), 9)
    ensures OnGrid(p) && Mistake(g, p.0, p.1)
  {
    var u := ColUnit(i);
    var a :| 0 <= a < 9 && u[a] == p && Val(g, u[a]) != 0 && Again(g, u, 9, a);
    var b :| 0 <= b < 9 && b != a && Val(g, u[b]) == Val(g, u[a]);
    assert Related(p, b, i);
  }

  lemma BoxMarkIsMistake(g: Grid, i: nat, p: Pos)
    requires IsGrid(g) && i < 9 && p in DupsIn(g, BoxUnit(i), 9)
    ensures OnGrid(p) && Mistake(g, p.0, p.1)
  {
    var u := BoxUnit(i);
    BoxEntries(i);
    var a :| 0 <= a < 9 && u[a] == p && Val(g, u[a]) != 0 && Again(g, u, 9, a);
    var b :| 0 <= b < 9 && b != a && Val(g, u[b]) == Val(g, u[a]);
    var q := u[b];
    assert PlaceInBox(q.0, q.1) == b;
    SameBox(p.0, p.1, q.0, q.1);
    assert Related(p, q.0, q.1);
  }

  /** A mistake is marked by the scan of the row, the column or the box it
      shares with a cell of the same value. */
  lemma MistakeIsMarked(g: Grid, r: nat, c: nat)
    requires IsGrid(g) && r < 9 && c < 9 && Mistake(g, r, c)
    ensures (r, c) in DupsIn(g, RowUnits()[r], 9) || (r, c) in DupsIn(g, ColUnits()[c], 9) ||
            (r, c) in DupsIn(g, BoxUnits()[BoxOf(r, c)], 9)
  {
    var r': nat, c': nat :| r' < 9 && c' < 9 && Related((r, c), r', c') && g[r'][c'] == g[r][c];
    if r' == r {
      var u := RowUnit(r);
      assert u[c] == (r, c) && Val(g, u[c']) == Val(g, u[c]);
    } else if c' == c {
      var u := ColUnit(c);
      assert u[r] == (r, c) && Val(g, u[r']) == Val(g, u[r]);
    } else {
      BoxIndex(r, c);
      BoxIndex(r', c');
      var u := BoxUnit(BoxOf(r, c));
      var a, a' := PlaceInBox(r, c), PlaceInBox(r', c');
      assert u[a] == (r, c) && u[a'] == (r', c') && a != a';
      assert Val(g, u[a']) == Val(g, u[a]);
    }
  }

  /** The scans of all rows, columns and boxes mark exactly the mistakes. */
  lemma FoundMistakes(g: Grid)
    requires IsGrid(g)
    ensures Found(g, RowUnits(), 9) + Found(g, ColUnits(), 9) + Found(g, BoxUnits(), 9) == Mistakes(g)
  {
    var all := Found(g, RowUnits(), 9) + Found(g, ColUnits(), 9) + Found(g, BoxUnits(), 9);
    forall p | p in all ensures p in Mistakes(g) {
      if p in Found(g, RowUnits(), 9) {
        var i :| 0 <= i < 9 && p in DupsIn(g, RowUnits()[i], 9);
        RowMarkIsMistake(g, i, p);
      } else if p in Found(g, ColUnits(), 9) {
        var i :| 0 <= i < 9 && p in DupsIn(g, ColUnits()[i], 9);
        ColMarkIsMistake(g, i, p);
      } else {
        var i :| 0 <= i < 9 && p in DupsIn(g, BoxUnits()[i], 9);
        BoxMarkIsMistake(g, i, p);
      }
    }
    forall p | p in Mistakes(g) ensures p in all {
      MistakeIsMarked(g, p.0, p.1);
    }
  }

  // ---------------------------------------------------------------------------
  // checkMistakes

  /** checkMistakes' scans, which mark exactly the mistakes. */
  method FindMistakes(g: Grid) returns (newMistakes: set<Pos>)
    requires IsGrid(g)
    ensures newMistakes == Mistakes(g)
  {
    newMistakes := ScanLines(g);
    newMistakes := ScanBoxes(g, newMistakes);
    FoundMistakes(g);
  }

  /** The scans of the rows and columns, side by side: each scan remembers a
      cell per value and, on meeting a value again, marks the current cell
      and the remembered one. */
  method ScanLines(g: Grid) returns (newMistakes: set<Pos>)
    requires IsGrid(g)
    ensures newMistakes == Found(g, RowUnits(), 9) + Found(g, ColUnits(), 9)
  {
    newMistakes := {};
    for i := 0 to 9
      invariant newMistakes == Found(g, RowUnits(), i) + Found(g, ColUnits(), i)
    {
      newMistakes := ScanLine(g, i, newMistakes);
      LinesNext(g, i);
    }
  }

  /** Row i and column i add their marks to those of the lines before. */
  lemma LinesNext(g: Grid, i: nat)
    requires IsGrid(g) && i < 9
    ensures Found(g, RowUnits(), i + 1) + Found(g, ColUnits(), i + 1) ==
            Found(g, RowUnits(), i) + Found(g, ColUnits(), i) + DupsIn(g, RowUnit(i), 9) + DupsIn(g, ColUnit(i), 9)
  {
    assert RowUnits()[i] == RowUnit(i) && ColUnits()[i] == ColUnit(i);
    FoundNext(g, RowUnits(), i);
    FoundNext(g, ColUnits(), i);
  }

  /** The scans of row i and column i, side by side. */
  method ScanLine(g: Grid, i: nat, marked: set<Pos>) returns (newMistakes: set<Pos>)
    requires IsGrid(g) && i < 9
    ensures newMistakes == marked + DupsIn(g, RowUnit(i), 9) + DupsIn(g, ColUnit(i), 9)
  {
    newMistakes := marked;
    var rowMap: map<nat, Pos> := map[];
    var colMap: map<nat, Pos> := map[];
    ghost var rowMarks, colMarks: set<Pos> := {}, {};
    for j := 0 to 9
      invariant (rowMap, rowMarks) == Scan(g, RowUnit(i), j)
      invariant (colMap, colMarks) == Scan(g, ColUnit(i), j)
      invariant newMistakes == marked + rowMarks + colMarks
    {
      assert RowUnit(i)[j] == (i, j) && ColUnit(i)[j] == (j, i);
      ScanNext(g, RowUnit(i), j);
      ScanNext(g, ColUnit(i), j);
      if g[i][j] != 0 {
        if g[i][j] in rowMap {
          newMistakes := newMistakes + {(i, j)};
          newMistakes := newMistakes + {rowMap[g[i][j]]};
          rowMarks := rowMarks + {(i, j), rowMap[g[i][j]]};
        }
        rowMap := rowMap[g[i][j] := (i, j)];
      }
      if g[j][i] != 0 {
        if g[j][i] in colMap {
          newMistakes := newMistakes + {(j, i)};
          newMistakes := newMistakes + {colMap[g[j][i]]};
          colMarks := colMarks + {(j, i), colMap[g[j][i]]};
        }
        colMap := colMap[g[j][i] := (j, i)];
      }
    }
    ScanDups(g, RowUnit(i), 9);
    ScanDups(g, ColUnit(i), 9);
  }

  /** The scans of the boxes, adding to the cells marked so far. */
  method ScanBoxes(g: Grid, marked: set<Pos>) returns (newMistakes: set<Pos>)
    requires IsGrid(g)
    ensures newMistakes == marked + Found(g, BoxUnits(), 9)
  {
    newMistakes := marked;
    for block := 0 to 9
      invariant newMistakes == marked + Found(g, BoxUnits(), block)
    {
      forall i, j | 0 <= i < 3 && 0 <= j < 3
        ensures Entry(BoxUnit(block), i, j) == (block / 3 * 3 + i, block % 3 * 3 + j)
      {
        BoxCell(block, i, j);
      }
      newMistakes := ScanBox(g, block, BoxUnit(block), newMistakes);
      assert BoxUnits()[block] == BoxUnit(block);
      FoundNext(g, BoxUnits(), block);
    }
  }

  /** Entry j of row i of the cells of a box listed row by row. */
  function Entry(u: seq<Pos>, i: nat, j: nat): Pos
    requires |u| == 9 && i < 3 && j < 3
  {
    u[3 * i + j]
  }

  /** The scan of one box, row by row inside the box; u lists the cells of
      the box in that order. */
  method ScanBox(g: Grid, block: nat, ghost u: seq<Pos>, marked: set<Pos>) returns (newMistakes: set<Pos>)
    requires IsGrid(g) && block < 9 && |u| == 9
    requires forall i, j | 0 <= i < 3 && 0 <= j < 3 :: Entry(u, i, j) == (block / 3 * 3 + i, block % 3 * 3 + j)
    ensures newMistakes == marked + DupsIn(g, u, 9)
  {
    newMistakes := marked;
    var blockMap: map<nat, Pos> := map[];
    var startR := block / 3 * 3;
    var startC := block % 3 * 3;
    ghost var marks: set<Pos> := {};
    for i := 0 to 3
      invariant (blockMap, marks) == Scan(g, u, 3 * i)
      invariant newMistakes == marked + marks
    {
      for j := 0 to 3
        invariant (blockMap, marks) == Scan(g, u, 3 * i + j)
        invariant newMistakes == marked + marks
      {
        var r := startR + i;
        var c := startC + j;
        ghost var k := 3 * i + j;
        assert u[k] == (r, c) by { assert Entry(u, i, j) == (r, c); }
        var val := g[r][c];
        if val != 0 {
          if val in blockMap {
            newMistakes := newMistakes + {(r, c)};
            var prev := blockMap[val];
            newMistakes := newMistakes + {prev};
            marks := marks + {(r, c), prev};
          }
          blockMap := blockMap[val := (r, c)];
        }
        assert (blockMap, marks) == Scan(g, u, k + 1) by { ScanNext(g, u, k); }
      }
      assert 3 * i + 3 == 3 * (i + 1);
    }
    ScanDups(g, u, 9);
  }

  // ---------------------------------------------------------------------------
  // Winning

  /** Every cell holds a value. */
  predicate Full(g: Grid)
    requires IsGrid(g)
  {
    forall r, c :: 0 <= r < 9 && 0 <= c < 9 ==> g[r][c] != 0
  }

  /** The win check: a full grid without mistakes. */
  ghost predicate Solved(g: Grid)
    requires IsGrid(g)
  {
    Full(g) && Mistakes(g) == {}
  }

  /** A grid is solved exactly when it is full and no two distinct cells
      sharing a row, a column or a box hold the same value. */
  lemma SolvedIff(g: Grid)
    requires IsGrid(g)
    ensures Solved(g) <==>
            Full(g) && forall p, q | OnGrid(p) && OnGrid(q) && p != q && ShareUnit(p, q) :: Val(g, p) != Val(g, q)
  {
    if Solved(g) {
      forall p, q | OnGrid(p) && OnGrid(q) && p != q && ShareUnit(p, q) ensures Val(g, p) != Val(g, q) {
        RelatedIffSharedUnit(p, q);
        assert !Mistake(g, p.0, p.1) by { assert (p.0, p.1) !in Mistakes(g); }
      }
    }
    if Full(g) && forall p, q | OnGrid(p) && OnGrid(q) && p != q && ShareUnit(p, q) :: Val(g, p) != Val(g, q) {
      forall r: nat, c: nat | r < 9 && c < 9 ensures !Mistake(g, r, c) {
        forall r': nat, c': nat | r' < 9 && c' < 9 && Related((r, c), r', c') ensures g[r'][c'] != g[r][c] {
          RelatedIffSharedUnit((r, c), (r', c'));
          assert Val(g, (r, c)) != Val(g, (r', c'));
        }
      }
    }
  }

  /** Built-in puzzle k. */
  function Puzzle(k: nat): (raw: string)
    requires k < |PUZZLES|
    ensures IsPuzzle(raw)
  {
    PuzzlesWellFormed();
    PUZZLES[k]
  }

  /** The grid before any puzzle is loaded, and a fresh grid of loadPuzzle. */
  function EmptyGrid(): (g: Grid)
    ensures IsDigitGrid(g) && forall r, c :: 0 <= r < 9 && 0 <= c < 9 ==> g[r][c] == 0
  {
    var row := ZeroRow();
    seq(9, r requires 0 <= r < 9 => row)
  }

  function ZeroRow(): (row: seq<nat>)
    ensures |row| == 9 && forall c :: 0 <= c < 9 ==> row[c] == 0
  {
    seq(9, c requires 0 <= c < 9 => 0)
  }

  /** No cell marked as a given. */
  function NoMarks(): (m: Marks)
    ensures IsMarks(m) && forall r, c :: 0 <= r < 9 && 0 <= c < 9 ==> !m[r][c]
  {
    seq(9, r requires 0 <= r < 9 => seq(9, c requires 0 <= c < 9 => false))
  }

  /** Before any character is read, loadPuzzle's grid is empty and nothing is
      a given. */
  lemma ParseStart(raw: string)
    requires IsPuzzle(raw)
    ensures GridPart(raw, 0) == EmptyGrid() && GivenPart(raw, 0) == NoMarks()
  {
    assert forall r | 0 <= r < 9 :: GridPart(raw, 0)[r] == EmptyGrid()[r];
    assert forall r | 0 <= r < 9 :: GivenPart(raw, 0)[r] == NoMarks()[r];
  }

  // ---------------------------------------------------------------------------
  // The game

  /** The Sudoku component: the grid, the givens, the selected cell, the cells
      shown as mistakes and whether the puzzle is solved. */
  class Sudoku {
    var grid: Grid
    var initial: Marks
    var selected: Option<Pos>
    var mistakes: set<Pos>
    var isWon: bool

    /** Digits everywhere, givens hold values, the selection lies on the
        grid, every cell shown as a mistake is one, and a won game is solved. */
    ghost predicate Valid()
      reads this
    {
      IsDigitGrid(grid) && IsMarks(initial) &&
      (forall r, c :: 0 <= r < 9 && 0 <= c < 9 && initial[r][c] ==> grid[r][c] != 0) &&
      (selected.Some? ==> OnGrid(selected.value)) &&
      mistakes <= Mistakes(grid) &&
      (isWon ==> Solved(grid))
    }

    /** Mounting the component: empty state, then loadPuzzle with the puzzle
        the random pick chose. */
    constructor (pick: nat)
      requires pick < |PUZZLES|
      ensures Valid()
      ensures grid == Parse(Puzzle(pick)) && initial == Givens(Puzzle(pick))
      ensures selected == None && mistakes == {} && !isWon
    {
      grid := EmptyGrid();
      initial := NoMarks();
      selected := None;
      mistakes := {};
      isWon := false;
      new;
      LoadPuzzle(pick);
    }

    /** loadPuzzle: puzzle number pick, read character by character; the
        selection, the mistakes and the win are cleared. */
    method LoadPuzzle(pick: nat)
      requires pick < |PUZZLES|
      modifies this
      ensures Valid()
      ensures grid == Parse(Puzzle(pick)) && initial == Givens(Puzzle(pick))
      ensures selected == None && mistakes == {} && !isWon
    {
      var raw := Puzzle(pick);
      var newGrid := EmptyGrid();
      var newInitial := NoMarks();
      ParseStart(raw);
      for i := 0 to 81
        modifies {}
        invariant newGrid == GridPart(raw, i) && newInitial == GivenPart(raw, i)
      {
        var r := i / 9;
        var c := i % 9;
        var val := Digit(raw[i]);
        ParseStep(raw, i);
        newGrid := SetCell(newGrid, r, c, val);
        newInitial := SetMark(newInitial, r, c, val != 0);
      }
      ParseSerialise(raw);
      grid := newGrid;
      initial := newInitial;
      selected := None;
      mistakes := {};
      isWon := false;
    }

    /** A click on cell (r, c) selects it. */
    method Select(r: nat, c: nat)
      requires r < 9 && c < 9 && Valid()
      modifies this
      ensures Valid() && selected == Some((r, c))
      ensures grid == old(grid) && initial == old(initial) && mistakes == old(mistakes) && isWon == old(isWon)
    {
      selected := Some((r, c));
    }

    /** isRelated: (r, c) is another cell sharing a row, a column or a box
        with the selected one. */
    function IsRelated(r: nat, c: nat): (b: bool)
      requires r < 9 && c < 9 && Valid()
      reads this
      ensures b <==> selected.Some? && selected.value != (r, c) && ShareUnit(selected.value, (r, c))
    {
      RelatedIffSharedUnitAt(selected, r, c);
      match selected
      case None => false
      case Some(sel) => Related(sel, r, c)
    }

    /** checkMistakes: the cells shown become exactly the mistakes of
        currentGrid, and a full grid without mistakes wins. */
    method CheckMistakes(currentGrid: Grid)
      requires IsGrid(currentGrid)
      modifies this
      ensures mistakes == Mistakes(currentGrid)
      ensures isWon == (old(isWon) || Solved(currentGrid))
      ensures grid == old(grid) && initial == old(initial) && selected == old(selected)
    {
      var newMistakes := FindMistakes(currentGrid);
      mistakes := newMistakes;
      var isFull := Full(currentGrid);
      if isFull && |newMistakes| == 0 {
        isWon := true;
      }
    }

    /** handleInput(num), num from the number pad (0 erases): with a
        selected cell that is not a given and a game not yet won, the cell
        takes num and the mistakes are checked; otherwise nothing changes. */
    method HandleInput(num: nat)
      requires num <= 9 && Valid()
      modifies this
      ensures Valid()
      ensures initial == old(initial) && selected == old(selected)
      ensures old(selected).None? || old(initial[selected.value.0][selected.value.1]) || old(isWon) ==>
                grid == old(grid) && mistakes == old(mistakes) && isWon == old(isWon)
      ensures old(selected).Some? && !old(initial[selected.value.0][selected.value.1]) && !old(isWon) ==>
                grid == SetCell(old(grid), selected.value.0, selected.value.1, num) &&
                mistakes == Mistakes(grid) && isWon == Solved(grid)
      ensures forall r, c :: 0 <= r < 9 && 0 <= c < 9 && initial[r][c] ==> grid[r][c] == old(grid[r][c])
    {
      if selected.None? || initial[selected.value.0][selected.value.1] || isWon {
        return;
      }
      var sel := selected.value;
      var newGrid := SetCell(grid, sel.0, sel.1, num);
      grid := newGrid;
      CheckMistakes(newGrid);
    }
  }

  /** RelatedIffSharedUnit for an optional selection. */
  lemma RelatedIffSharedUnitAt(selected: Option<Pos>, r: nat, c: nat)
    requires r < 9 && c < 9 && (selected.Some? ==> OnGrid(selected.value))
    ensures selected.Some? ==>
              (Related(selected.value, r, c) <==> selected.value != (r, c) && ShareUnit(selected.value, (r, c)))
  {
    if selected.Some? {
      RelatedIffSharedUnit(selected.value, (r, c));
    }
  }
}
