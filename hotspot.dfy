/**
 * The hotspot pre-calculations of main (xy2level, level2xy) and the
 * initial grid: a border of stars around free cells.
 */
module Hotspot {
  import opened Consts

  /** Cell (col, row) of the grid. */
  lemma CellAt(col: int, row: int)
    requires 0 <= col < 22 && 0 <= row < 22
    ensures 0 <= col + row * 22 < CELLS
    ensures Col(col + row * 22) == col && Row(col + row * 22) == row
  {
    var xy := col + row * 22;
    assert xy == row * 22 + col;
    assert xy / 22 == row && xy % 22 == col by {
      DivModUnique(xy, row, col);
    }
  }

  /** Division by the row length has one quotient and one remainder. */
  lemma DivModUnique(xy: int, q: int, r: int)
    requires xy == q * 22 + r && 0 <= r < 22
    ensures xy / 22 == q && xy % 22 == r
  {
  }

  /**
   * The first cell main records for each level: for levels below GRIDMAX the
   * cell of row 1 on that anti-diagonal, for the others the cell of column
   * GRIDMAX-2.
   */
  function LevelStart(l: int): (xy: int)
    ensures 0 <= l <= GRIDMAX * 2 - 4 ==> 0 <= xy < CELLS
  {
    if l < GRIDMAX then l + GRIDMAX - 1 else CELLS - (GRIDMAX * 2 - 3 - l) * GRIDMAX - 2
  }

  /** Level l's first cell lies on level l, in the grid. */
  lemma {:induction false} LevelStartLevel(l: int)
    requires 1 <= l <= GRIDMAX * 2 - 3
    ensures 0 <= LevelStart(l) < CELLS && Level(LevelStart(l)) == l
    ensures 2 <= l <= GRIDMAX * 2 - 4 ==> !OnBorder(LevelStart(l))
  {
    if l < GRIDMAX {
      assert LevelStart(l) == (l - 1) + 1 * 22;
      CellAt(l - 1, 1);
    } else {
      assert LevelStart(l) == 20 + (l - 20) * 22;
      CellAt(20, l - 20);
    }
  }

  /**
   * One step of the diagonal sweep (xy += GRIDMAX-1) from a cell inside the
   * border stays in the grid, on the same level, one column to the left.
   */
  lemma {:induction false} DiagonalStep(xy: int)
    requires 0 <= xy < CELLS && !OnBorder(xy)
    ensures 0 <= xy + GRIDMAX - 1 < CELLS
    ensures Level(xy + GRIDMAX - 1) == Level(xy)
    ensures Col(xy + GRIDMAX - 1) == Col(xy) - 1 && Row(xy + GRIDMAX - 1) == Row(xy) + 1
  {
    var col, row := Col(xy), Row(xy);
    assert xy == col + row * 22;
    assert xy + 21 == (col - 1) + (row + 1) * 22;
    CellAt(col - 1, row + 1);
  }

  /**
   * The pre-calculation loops of main. Every cell gets its level, and every
   * level from 1 to 2*GRIDMAX-3 gets a cell on that level, inside the
   * border from level 2 to 2*GRIDMAX-4.
   */
  method Hotspots() returns (xy2level: seq<int>, level2xy: seq<int>)
    ensures |xy2level| == CELLS && |level2xy| == GRIDMAX * 2
    ensures forall i :: 0 <= i < CELLS ==> xy2level[i] == Col(i) + Row(i)
    ensures forall l :: 1 <= l <= GRIDMAX * 2 - 3 ==> 0 <= level2xy[l] < CELLS && xy2level[level2xy[l]] == l
    ensures forall l :: 2 <= l <= GRIDMAX * 2 - 4 ==> !OnBorder(level2xy[l])
    ensures forall l :: 0 <= l < GRIDMAX * 2 ==> level2xy[l] == LevelStart(l)
  {
    var levels := new int[CELLS];
    var i := CELLS - 1;
    while i >= 0
      invariant -1 <= i < CELLS
      invariant forall j :: i < j < CELLS ==> levels[j] == Level(j)
    {
      levels[i] := (i % 22) + (i / 22);
      i := i - 1;
    }
    var starts := new int[GRIDMAX * 2];
    i := 0;
    while i < GRIDMAX * 2
      modifies starts
      invariant 0 <= i <= GRIDMAX * 2
      invariant forall l :: 0 <= l < i ==> starts[l] == LevelStart(l)
    {
      if i < GRIDMAX {
        starts[i] := i + GRIDMAX - 1;
      } else {
        starts[i] := GRIDMAX * GRIDMAX - (GRIDMAX * 2 - 3 - i) * GRIDMAX - 2;
      }
      i := i + 1;
    }
    xy2level, level2xy := levels[..], starts[..];
    forall l | 1 <= l <= GRIDMAX * 2 - 3
      ensures 0 <= level2xy[l] < CELLS && xy2level[level2xy[l]] == l
      ensures 2 <= l <= GRIDMAX * 2 - 4 ==> !OnBorder(level2xy[l])
    {
      LevelStartLevel(l);
      assert xy2level[LevelStart(l)] == Level(LevelStart(l));
    }
  }

  /** The tables of main as the search reads them: the level of every cell, and the start of every level's walk. */
  predicate Tables(xy2level: seq<int>, level2xy: seq<int>)
  {
    |xy2level| == CELLS && |level2xy| == GRIDMAX * 2 &&
    (forall i :: 0 <= i < CELLS ==> xy2level[i] == Level(i)) &&
    (forall l :: 0 <= l < GRIDMAX * 2 ==> level2xy[l] == LevelStart(l))
  }

  /** No interior cell of level l is free: the sweep has filled that level. */
  predicate Filled(g: seq<int>, l: int)
    requires |g| == CELLS
  {
    forall c {:trigger Level(c)} :: 0 <= c < CELLS && !OnBorder(c) && Level(c) == l ==> g[c] != FREE
  }

  /** A cell is fixed by its column and row. */
  lemma SameCell(a: int, b: int)
    requires 0 <= a < CELLS && 0 <= b < CELLS && Col(a) == Col(b) && Row(a) == Row(b)
    ensures a == b
  {
    assert a == Row(a) * 22 + Col(a);
    assert b == Row(b) * 22 + Col(b);
  }

  /**
   * The diagonal walk of a level the sweep visits starts inside the grid;
   * from level 1 on it starts on the level itself, below the top border and
   * left of the right one, and no interior cell of the level lies to the
   * right of its start.
   */
  lemma {:induction false} WalkStart(l: int)
    requires 0 <= l <= GRIDMAX * 2 - 4
    ensures 0 <= LevelStart(l) < CELLS
    ensures l >= 1 ==> Level(LevelStart(l)) == l && Row(LevelStart(l)) >= 1 && Col(LevelStart(l)) <= GRIDMAX - 2
    ensures forall c :: 0 <= c < CELLS && !OnBorder(c) && Level(c) == l ==> Col(c) <= Col(LevelStart(l))
  {
    if l == 0 {
      assert LevelStart(l) == 21;
    } else if l < GRIDMAX {
      assert LevelStart(l) == (l - 1) + 1 * 22;
      CellAt(l - 1, 1);
    } else {
      assert LevelStart(l) == 20 + (l - 20) * 22;
      CellAt(20, l - 20);
    }
  }

  /**
   * One step of the walk from an interior cell of level l leaves behind
   * exactly that cell: an interior cell of the level right of the next cell
   * is the cell left or one right of it.
   */
  lemma WalkStep(l: int, xy: int, c: int)
    requires 0 <= xy < CELLS && !OnBorder(xy) && Level(xy) == l
    requires 0 <= c < CELLS && Level(c) == l && Col(c) > Col(xy) - 1
    ensures c == xy || Col(c) > Col(xy)
  {
    if Col(c) == Col(xy) {
      SameCell(c, xy);
    }
  }

  /** Where the walk meets the border it has passed every interior cell of its level. */
  lemma WalkEnd(l: int, xy: int)
    requires 0 <= l && 0 <= xy < CELLS && OnBorder(xy)
    requires l >= 1 ==> Level(xy) == l && Row(xy) >= 1 && Col(xy) <= GRIDMAX - 2
    ensures forall c :: 0 <= c < CELLS && !OnBorder(c) && Level(c) == l ==> Col(c) > Col(xy)
  {
  }

  /**
   * Cell xy is where the walk of level l can be: the start of level 0, or a
   * cell of level l below the top border and left of the right one.
   */
  predicate OnWalk(l: int, xy: int)
  {
    0 <= xy < CELLS &&
    (l == 0 ==> xy == LevelStart(0)) &&
    (l >= 1 ==> Level(xy) == l && Row(xy) >= 1 && Col(xy) <= GRIDMAX - 2)
  }

  /** Every interior cell of level l right of column col is filled in grid g. */
  predicate Covered(g: seq<int>, l: int, col: int)
    requires |g| == CELLS
  {
    forall c {:trigger Level(c)} :: 0 <= c < CELLS && !OnBorder(c) && Level(c) == l && Col(c) > col ==> g[c] != FREE
  }

  /** The walk of a level starts on the walk, with nothing of the level to its right. */
  lemma WalkBegins(l: int, g: seq<int>)
    requires 0 <= l <= GRIDMAX * 2 - 4 && |g| == CELLS
    ensures OnWalk(l, LevelStart(l)) && Covered(g, l, Col(LevelStart(l)))
  {
    WalkStart(l);
  }

  /**
   * One step of the walk from an interior cell stays on the walk, and a grid
   * filled right of the cell and at the cell is filled right of the next one.
   */
  lemma WalkNext(l: int, xy: int, g: seq<int>)
    requires OnWalk(l, xy) && !OnBorder(xy) && |g| == CELLS
    ensures OnWalk(l, xy + GRIDMAX - 1)
    ensures Covered(g, l, Col(xy)) && g[xy] != FREE ==> Covered(g, l, Col(xy + GRIDMAX - 1))
  {
    DiagonalStep(xy);
    if Covered(g, l, Col(xy)) && g[xy] != FREE {
      forall c | 0 <= c < CELLS && !OnBorder(c) && Level(c) == l && Col(c) > Col(xy + GRIDMAX - 1)
        ensures g[c] != FREE
      {
        WalkStep(l, xy, c);
      }
    }
  }

  /** Where the walk meets the border, a covered level is filled. */
  lemma WalkEnds(l: int, xy: int, g: seq<int>)
    requires 0 <= l && OnWalk(l, xy) && OnBorder(xy) && |g| == CELLS && Covered(g, l, Col(xy))
    ensures Filled(g, l)
  {
    WalkEnd(l, xy);
  }

  /** The cell in column col of row row. */
  function At(col: int, row: int): int
  {
    col + row * 22
  }

  /** What a cell of the initial grid holds: a star on the border, free inside. */
  function InitialCode(xy: int): int
  {
    if OnBorder(xy) then STAR else FREE
  }

  /** The hints of a cell of the initial grid: only the border bit, on the border. */
  function InitialAttr(xy: int): bv8
  {
    if OnBorder(xy) then BORDER else 0
  }

  /**
   * The two passes of main that build the initial grid: first every cell
   * becomes a border star, then every cell inside the border becomes free
   * with no hints.
   */
  method InitialGrid() returns (grid: seq<int>, attr: seq<bv8>)
    ensures |grid| == CELLS && |attr| == CELLS
    ensures forall xy :: 0 <= xy < CELLS ==> grid[xy] == InitialCode(xy) && attr[xy] == InitialAttr(xy)
  {
    var g := new int[CELLS];
    var a := new bv8[CELLS];
    var y := GRIDMAX - 1;
    while y >= 0
      invariant -1 <= y < GRIDMAX
      invariant forall c, r :: 0 <= c < 22 && y < r < 22 ==> g[At(c, r)] == STAR && a[At(c, r)] == BORDER
    {
      var x := GRIDMAX - 1;
      while x >= 0
        invariant -1 <= x < GRIDMAX
        invariant forall c, r :: 0 <= c < 22 && y < r < 22 ==> g[At(c, r)] == STAR && a[At(c, r)] == BORDER
        invariant forall c :: x < c < 22 ==> g[At(c, y)] == STAR && a[At(c, y)] == BORDER
      {
        g[At(x, y)] := STAR;
        a[At(x, y)] := BORDER;
        x := x - 1;
      }
      y := y - 1;
    }
    y := GRIDMAX - 2;
    while y > 0
      invariant 0 <= y <= GRIDMAX - 2
      invariant forall c, r :: 0 <= c < 22 && 0 <= r < 22 ==>
        g[At(c, r)] == (if y < r && 0 < c < 21 && r < 21 then FREE else STAR) &&
        a[At(c, r)] == (if y < r && 0 < c < 21 && r < 21 then 0 else BORDER)
    {
      var x := GRIDMAX - 2;
      while x > 0
        invariant 0 <= x <= GRIDMAX - 2
        invariant forall c, r :: 0 <= c < 22 && 0 <= r < 22 ==>
          g[At(c, r)] == (if (y < r || (r == y && x < c)) && 0 < c < 21 && r < 21 then FREE else STAR) &&
          a[At(c, r)] == (if (y < r || (r == y && x < c)) && 0 < c < 21 && r < 21 then 0 else BORDER)
      {
        g[At(x, y)] := FREE;
        a[At(x, y)] := 0;
        x := x - 1;
      }
      y := y - 1;
    }
    grid, attr := g[..], a[..];
    forall xy | 0 <= xy < CELLS
      ensures grid[xy] == InitialCode(xy) && attr[xy] == InitialAttr(xy)
    {
      CellAt(Col(xy), Row(xy));
      assert xy == At(Col(xy), Row(xy));
    }
  }

}
