/**
 * The Connect Four grid as a value: rows indexed from the top (row 0) to the
 * bottom (row height-1), each row a sequence of cells.  A cell holds EMPTY or
 * the id of the player whose piece is there (1 or 2).
 */
module Board {
  import opened Wrappers

  /** The empty cell; the source leaves such cells `undefined`. */
  const EMPTY: int := 0

  type Grid = seq<seq<int>>

  /** `g` has `height` rows, each `width` cells long. */
  ghost predicate Rect(g: Grid, height: nat, width: nat) {
    |g| == height && forall y :: 0 <= y < |g| ==> |g[y]| == width
  }

  /** Column `x` exists in every row of `g`. */
  ghost predicate HasColumn(g: Grid, x: int) {
    0 <= x && forall y :: 0 <= y < |g| ==> x < |g[y]|
  }

  /** Every cell is EMPTY or a player id. */
  ghost predicate Pieces(g: Grid) {
    forall y, x :: 0 <= y < |g| && 0 <= x < |g[y]| ==> 0 <= g[y][x] <= 2
  }

  /** Every cell is EMPTY. */
  ghost predicate AllEmpty(g: Grid) {
    forall y, x :: 0 <= y < |g| && 0 <= x < |g[y]| ==> g[y][x] == EMPTY
  }

  /**
   * Gravity: in every column the filled cells form one block at the bottom,
   * so a filled cell has only filled cells below it.
   */
  ghost predicate Settled(g: Grid) {
    forall y, y', x ::
      0 <= y < y' < |g| && 0 <= x < |g[y]| && x < |g[y']| && g[y][x] != EMPTY
      ==> g[y'][x] != EMPTY
  }

  /** `row.every(cell => cell)`: every cell of the row holds a piece. */
  predicate RowFilled(row: seq<int>)
    ensures RowFilled(row) <==> forall x :: 0 <= x < |row| ==> row[x] != EMPTY
  {
    RowFilledByIndex(row);
    forall cell :: cell in row ==> cell != EMPTY
  }

  /** The tie test `board.every(row => row.every(cell => cell))`: no cell is EMPTY. */
  predicate Full(g: Grid)
    ensures Full(g) <==> forall y, x :: 0 <= y < |g| && 0 <= x < |g[y]| ==> g[y][x] != EMPTY
  {
    FullByIndex(g);
    forall row :: row in g ==> RowFilled(row)
  }

  /** A row's cells read by membership and by index agree. */
  lemma RowFilledByIndex(row: seq<int>)
    ensures (forall cell :: cell in row ==> cell != EMPTY)
        <==> (forall x :: 0 <= x < |row| ==> row[x] != EMPTY)
  {
    if forall cell :: cell in row ==> cell != EMPTY {
      forall x | 0 <= x < |row| ensures row[x] != EMPTY {
        assert row[x] in row;
      }
    }
  }

  /** The grid's rows read by membership and by index agree. */
  lemma FullByIndex(g: Grid)
    ensures (forall row :: row in g ==> RowFilled(row))
        <==> (forall y, x :: 0 <= y < |g| && 0 <= x < |g[y]| ==> g[y][x] != EMPTY)
  {
    if forall row :: row in g ==> RowFilled(row) {
      forall y, x | 0 <= y < |g| && 0 <= x < |g[y]| ensures g[y][x] != EMPTY {
        assert g[y] in g;
      }
    }
  }

  // ---------------------------------------------------------------------
  // Gravity drop

  /**
   * Scans column `x` upward from row `below - 1` to row 0 and gives the first
   * EMPTY row met, or None when all of those rows are filled.
   */
  function ScanUp(g: Grid, x: int, below: nat): (r: Option<nat>)
    requires HasColumn(g, x) && below <= |g|
    ensures r.Some? ==> r.value < below && g[r.value][x] == EMPTY
    ensures r.Some? ==> forall y :: r.value < y < below ==> g[y][x] != EMPTY
    ensures r.None? <==> forall y :: 0 <= y < below ==> g[y][x] != EMPTY
    decreases below
  {
    if below == 0 then None
    else if g[below - 1][x] == EMPTY then Some(below - 1)
    else ScanUp(g, x, below - 1)
  }

  /**
   * The row a piece dropped into column `x` settles in: the largest EMPTY row
   * of the column, or None exactly when the column is full.
   */
  function DropRow(g: Grid, x: int): (r: Option<nat>)
    requires HasColumn(g, x)
    ensures r.Some? ==> r.value < |g| && g[r.value][x] == EMPTY
    ensures r.Some? ==> forall y :: r.value < y < |g| ==> g[y][x] != EMPTY
    ensures r.None? <==> forall y :: 0 <= y < |g| ==> g[y][x] != EMPTY
  {
    ScanUp(g, x, |g|)
  }

  /**
   * In a settled grid every cell of column `x` above the drop row is EMPTY as
   * well: the drop row is the boundary between the empty top and filled bottom.
   */
  lemma SettledColumnSplits(g: Grid, x: int)
    requires HasColumn(g, x) && Settled(g) && DropRow(g, x).Some?
    ensures forall y :: 0 <= y <= DropRow(g, x).value ==> g[y][x] == EMPTY
  {
  }

  /** Writes player `p` into cell (y, x). */
  function Play(g: Grid, y: nat, x: nat, p: int): (r: Grid)
    requires y < |g| && x < |g[y]|
    ensures |r| == |g| && forall y' :: 0 <= y' < |g| ==> |r[y']| == |g[y']|
    ensures forall y', x' :: 0 <= y' < |g| && 0 <= x' < |g[y']| ==>
      r[y'][x'] == if y' == y && x' == x then p else g[y'][x']
  {
    g[y := g[y][x := p]]
  }

  /** A drop keeps the grid's shape. */
  lemma PlayKeepsRect(g: Grid, height: nat, width: nat, y: nat, x: nat, p: int)
    requires Rect(g, height, width) && y < height && x < width
    ensures Rect(Play(g, y, x, p), height, width)
  {
  }

  /** Writing a player id at the drop row keeps every column settled. */
  lemma PlayKeepsSettled(g: Grid, x: nat, p: int)
    requires HasColumn(g, x) && Settled(g) && DropRow(g, x).Some? && p != EMPTY
    ensures Settled(Play(g, DropRow(g, x).value, x, p))
  {
  }

  /** A cell that held a piece keeps it: pieces are never removed or recoloured. */
  lemma PlayKeepsPieces(g: Grid, y: nat, x: nat, p: int)
    requires y < |g| && x < |g[y]| && g[y][x] == EMPTY && 1 <= p <= 2 && Pieces(g)
    ensures Pieces(Play(g, y, x, p))
    ensures forall y', x' :: 0 <= y' < |g| && 0 <= x' < |g[y']| && g[y'][x'] != EMPTY ==>
      Play(g, y, x, p)[y'][x'] == g[y'][x']
  {
  }

  // ---------------------------------------------------------------------
  // Win detection

  /**
   * Cell (y, x) lies on the grid and holds player `p`; the bounds are tested
   * first, so a coordinate off the grid is simply not owned.
   */
  predicate Owns(g: Grid, p: int, y: int, x: int)
    ensures Owns(g, p, y, x) ==> 0 <= y < |g| && 0 <= x < |g[y]|
  {
    0 <= y < |g| && 0 <= x < |g[y]| && g[y][x] == p
  }

  /** The inner `_win` test: every listed cell lies on the grid and holds `p`. */
  predicate AllOwned(g: Grid, p: int, cells: seq<(int, int)>)
  {
    forall i :: 0 <= i < |cells| ==> Owns(g, p, cells[i].0, cells[i].1)
  }

  /** The four line shapes anchored at a cell; rows grow downward. */
  datatype Direction = Horiz | Vert | DiagDR | DiagDL {
    /** Row step between consecutive cells of the line. */
    function DY(): (dy: int) {
      if this == Horiz then 0 else 1
    }
    /** Column step between consecutive cells of the line. */
    function DX(): (dx: int) {
      match this
      case Horiz => 1
      case Vert => 0
      case DiagDR => 1
      case DiagDL => -1
    }
  }

  /** The four cells of the candidate line anchored at (y, x) in direction `d`. */
  function Line(y: int, x: int, d: Direction): (cells: seq<(int, int)>)
    ensures |cells| == 4 && cells[0] == (y, x)
    ensures forall k :: 0 <= k < 3 ==> cells[k + 1] == (cells[k].0 + d.DY(), cells[k].1 + d.DX())
  {
    match d
    case Horiz => [(y, x), (y, x + 1), (y, x + 2), (y, x + 3)]
    case Vert => [(y, x), (y + 1, x), (y + 2, x), (y + 3, x)]
    case DiagDR => [(y, x), (y + 1, x + 1), (y + 2, x + 2), (y + 3, x + 3)]
    case DiagDL => [(y, x), (y + 1, x - 1), (y + 2, x - 2), (y + 3, x - 3)]
  }

  /**
   * `_boundWin` on the line anchored at (y, x) in direction `d`: all four cells
   * hold `p`, the anchor among them.
   */
  predicate WinsAt(g: Grid, p: int, y: int, x: int, d: Direction)
    ensures WinsAt(g, p, y, x, d) ==> Owns(g, p, y, x)
  {
    AllOwned(g, p, Line(y, x, d))
  }

  /**
   * Some anchor and direction give `p` a winning line.  Only anchors on the
   * grid matter, which is why a scan of the grid's cells decides it.
   */
  ghost predicate HasWin(g: Grid, p: int)
    ensures HasWin(g, p) <==>
      exists y, x, d :: 0 <= y < |g| && 0 <= x < |g[y]| && WinsAt(g, p, y, x, d)
  {
    exists y: int, x: int, d: Direction :: WinsAt(g, p, y, x, d)
  }

  /** The cells of a line written out with the direction's steps. */
  lemma LineCells(y: int, x: int, d: Direction)
    ensures Line(y, x, d) == [(y, x), (y + d.DY(), x + d.DX()),
                              (y + 2 * d.DY(), x + 2 * d.DX()), (y + 3 * d.DY(), x + 3 * d.DX())]
  {
  }

  /** A winning line's anchor is itself a cell of `p` on the grid. */
  lemma AnchorsOwned(g: Grid, p: int)
    ensures forall y, x, d :: WinsAt(g, p, y, x, d) ==> Owns(g, p, y, x)
  {
  }

  /** (dy, dx) is one of the eight unit steps between neighbouring cells. */
  ghost predicate UnitStep(dy: int, dx: int) {
    -1 <= dy <= 1 && -1 <= dx <= 1 && (dy, dx) != (0, 0)
  }

  /**
   * Four consecutive cells of `p` starting at (y, x) and stepping (dy, dx):
   * a four-in-a-row in any of the eight orientations.
   */
  ghost predicate FourInARow(g: Grid, p: int, y: int, x: int, dy: int, dx: int) {
    && Owns(g, p, y, x)
    && Owns(g, p, y + dy, x + dx)
    && Owns(g, p, y + 2 * dy, x + 2 * dx)
    && Owns(g, p, y + 3 * dy, x + 3 * dx)
  }

  /**
   * Completeness: every four-in-a-row, whichever way it points, is a win
   * anchored at its top-most (then left-most) cell; an up-right diagonal is
   * found as DiagDL from its top cell, a leftward row as Horiz from its left end.
   */
  lemma FourInARowIsWin(g: Grid, p: int, y: int, x: int, dy: int, dx: int)
    requires UnitStep(dy, dx) && FourInARow(g, p, y, x, dy, dx)
    ensures (dy == 1 || (dy, dx) == (0, 1)) ==> exists d :: WinsAt(g, p, y, x, d)
    ensures !(dy == 1 || (dy, dx) == (0, 1)) ==>
      exists ay, ax, d :: ay == y + 3 * dy && ax == x + 3 * dx && WinsAt(g, p, ay, ax, d)
    ensures HasWin(g, p)
  {
    if dy == 1 || (dy == 0 && dx == 1) {
      var d := if dy == 0 then Horiz else if dx == 0 then Vert else if dx == 1 then DiagDR else DiagDL;
      LineCells(y, x, d);
      assert WinsAt(g, p, y, x, d);
    } else {
      // the line points up or left: its far end is the anchor, stepping back
      var d := if dy == 0 then Horiz else if dx == 0 then Vert else if dx == -1 then DiagDR else DiagDL;
      LineCells(y + 3 * dy, x + 3 * dx, d);
      assert WinsAt(g, p, y + 3 * dy, x + 3 * dx, d);
    }
  }

  /** Soundness: every win is a four-in-a-row. */
  lemma WinIsFourInARow(g: Grid, p: int)
    requires HasWin(g, p)
    ensures exists y, x, dy, dx :: UnitStep(dy, dx) && FourInARow(g, p, y, x, dy, dx)
  {
    var y, x, d :| WinsAt(g, p, y, x, d);
    LineCells(y, x, d);
    var cells := Line(y, x, d);
    assert Owns(g, p, cells[1].0, cells[1].1) && Owns(g, p, cells[2].0, cells[2].1);
    assert Owns(g, p, cells[0].0, cells[0].1) && Owns(g, p, cells[3].0, cells[3].1);
    assert UnitStep(d.DY(), d.DX()) && FourInARow(g, p, y, x, d.DY(), d.DX());
  }

  /** An empty grid holds no winning line for any player. */
  lemma EmptyHasNoWin(g: Grid, p: int)
    requires AllEmpty(g) && p != EMPTY
    ensures !HasWin(g, p)
  {
    AnchorsOwned(g, p);
  }

  /** A winning line needs four rows or four columns of room. */
  lemma WinNeedsRoom(g: Grid, height: nat, width: nat, p: int)
    requires Rect(g, height, width)
    ensures forall y, x, d :: WinsAt(g, p, y, x, d) ==> 4 <= height || 4 <= width
  {
    forall y, x, d | WinsAt(g, p, y, x, d) ensures 4 <= height || 4 <= width {
      LineCells(y, x, d);
      var cells := Line(y, x, d);
      assert Owns(g, p, cells[0].0, cells[0].1) && Owns(g, p, cells[3].0, cells[3].1);
    }
  }

  /** A grid with fewer than four rows and fewer than four columns has no winning line. */
  lemma SmallGridHasNoWin(g: Grid, height: nat, width: nat, p: int)
    requires Rect(g, height, width) && height < 4 && width < 4
    ensures !HasWin(g, p)
  {
    WinNeedsRoom(g, height, width, p);
  }

  /**
   * Placing a piece of `p` in an EMPTY cell cannot give any other player a
   * win: the other player's cells are exactly as before.
   */
  lemma {:induction false} PlayKeepsOpponentWinless(g: Grid, y: nat, x: nat, p: int, q: int)
    requires y < |g| && x < |g[y]| && g[y][x] == EMPTY && q != p && !HasWin(g, q)
    ensures !HasWin(Play(g, y, x, p), q)
  {
    var g' := Play(g, y, x, p);
    if HasWin(g', q) {
      var ay, ax, d :| WinsAt(g', q, ay, ax, d);
      var cells := Line(ay, ax, d);
      forall i | 0 <= i < |cells| ensures Owns(g, q, cells[i].0, cells[i].1) {
        assert Owns(g', q, cells[i].0, cells[i].1);
      }
      assert WinsAt(g, q, ay, ax, d);
    }
  }
}
