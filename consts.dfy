/**
 * Configuration constants, cell codes and grid geometry of the jigsaw
 * crossword grid generator.
 *
 * The grid is a square of GRIDMAX x GRIDMAX cells, border included, stored
 * row by row: cell `xy` has column `xy % GRIDMAX` and row `xy / GRIDMAX`,
 * and its neighbours are `xy +- 1` (same row) and `xy +- GRIDMAX` (same
 * column).
 */
module Consts {

  const GRIDMAX: int := 22          // size of the grid, border included
  const CELLS: int := 484           // GRIDMAX * GRIDMAX
  const LINKMAX: int := 4096        // capacity of the link table body
  const WORDMAX: int := 256         // capacity of the word list
  const WORDLENMAX: int := 32       // capacity of one encoded word
  const ADJMAX: int := 128          // capacity of a node's crossing worklist
  const SCOREMAX: int := 1000       // number of frontier buckets
  const HASHMOD: int := 0x1_0000_0000

  /** Cell and word codes: letters are 1..26. */
  const STAR: int := 28             // word delimiter and border filler
  const FREE: int := 31             // empty cell

  /** Cell hints. */
  const TODOH: bv8 := 1             // a horizontal word can be placed through here
  const TODOV: bv8 := 2             // a vertical word can be placed through here
  const BORDER: bv8 := 4            // the cell is part of the grid border

  predicate IsStar(c: int) { c == STAR }
  predicate IsFree(c: int) { c == FREE }
  /** The source's ISCHAR: everything below the delimiter code. */
  predicate IsChar(c: int) { c < STAR }
  predicate IsLetter(c: int) { 1 <= c <= 26 }
  /** The codes that ever occur in a grid. */
  predicate IsCode(c: int) { IsLetter(c) || c == STAR || c == FREE }

  /** Orientation of a word. */
  datatype Dir = H | V

  datatype Option<T> = None | Some(value: T)

  /** Distance between two consecutive cells of a word of orientation `dir`. */
  function Stride(dir: Dir): (s: int)
    ensures s == 1 || s == GRIDMAX
  {
    if dir == H then 1 else GRIDMAX
  }

  /** The orientation of a word crossing a word of orientation `dir`. */
  function Across(dir: Dir): (a: Dir)
    ensures a != dir
  {
    if dir == H then V else H
  }

  /** The hint bit that says a word of orientation `dir` may pass through a cell. */
  function Todo(dir: Dir): (b: bv8)
    ensures b == TODOH || b == TODOV
  {
    if dir == H then TODOH else TODOV
  }

  /** Cell `k` of a word anchored at `xybase`. Here and in Col, Row and Level, 22 is GRIDMAX written out, which keeps the arithmetic linear. */
  function CellOf(xybase: int, k: int, dir: Dir): int
  {
    if dir == H then xybase + k else xybase + k * 22
  }

  function Col(xy: int): int { xy % 22 }
  function Row(xy: int): int { xy / 22 }

  predicate OnBorder(xy: int)
  {
    Col(xy) == 0 || Col(xy) == GRIDMAX - 1 || Row(xy) == 0 || Row(xy) == GRIDMAX - 1
  }

  /** Hotspot level: the anti-diagonal a cell lies on. */
  function Level(xy: int): int { xy % 22 + xy / 22 }

  /** Point reflection through the centre of the grid. */
  function Mirror(xy: int): int { CELLS - 1 - xy }

  /** An interior cell has all four neighbours inside the grid. */
  lemma InteriorNeighbours(xy: int)
    requires 0 <= xy < CELLS && !OnBorder(xy)
    ensures GRIDMAX <= xy < CELLS - GRIDMAX
    ensures 0 <= xy - GRIDMAX && xy + GRIDMAX < CELLS && 0 <= xy - 1 && xy + 1 < CELLS
  {
  }
}
