/**
 * The passes of the sweep of scan_grid as a specification: for each pass
 * the exact sequence of placement attempts it makes down a level's
 * diagonal, link by link and cell by cell, the pruning the fragment pass
 * does to the grid it scans, and where each pass stops.
 */
module Sweep {
  import opened Consts
  import opened Links
  import opened Grid
  import opened Place
  import opened Trace
  import opened Hotspot

  /** The three passes of the sweep of scan_grid. */
  datatype Pass = TightPass | AdjacentPass | FragmentPass

  /** Attempt t places a grid: place_hword/place_vword return 1. */
  ghost predicate Places(lex: Lexicon, sym: bool, t: Attempt)
  {
    LexShape(lex) && NodeOk(lex, t.base) && 0 <= t.w < |lex.words| &&
    PlaceOk(lex, sym, t.base, t.xybase, t.w, t.dir)
  }

  /** The number of attempts of ts that place a grid: what the `hasplace`/`cnt` sums of scan_grid add up. */
  ghost function Successes(lex: Lexicon, sym: bool, ts: seq<Attempt>): nat
    decreases |ts|
  {
    if ts == [] then 0 else (if Places(lex, sym, ts[0]) then 1 else 0) + Successes(lex, sym, ts[1..])
  }

  // ---------------------------------------------------------------------
  // The tight and adjacent passes, and the walk of one letter's list

  /**
   * The attempts of one pass for entry l of the links1 list of the letter
   * at xy, the word anchored at the entry's offset from xy: the tight pass
   * when the anchor is on the hotspot level; the adjacent pass when the
   * anchor holds a star, and under symmetry once more when the mirror of
   * the word's last cell holds a star; the fragment pass when the anchor
   * holds no star.
   */
  ghost function LinkTries(lex: Lexicon, sym: bool, pass: Pass, d: Node, xy: int, dir: Dir, l: int): seq<Attempt>
    requires LexShape(lex) && |d.grid| == CELLS && 0 < l < |lex.linkdat|
  {
    var ld := lex.linkdat[l];
    var tstxy := xy + ld.ofs * Stride(dir);
    match pass
    case TightPass =>
      if 0 <= tstxy < CELLS && Level(tstxy) == d.firstlevel then [Attempt(Tight(xy, l), d, tstxy, ld.w, dir)] else []
    case AdjacentPass =>
      var m := Mirror(LastCell(tstxy, |lex.words[ld.w]|, dir));
      (if 0 <= tstxy < CELLS && d.grid[tstxy] == STAR then [Attempt(Adjacent(xy, l), d, tstxy, ld.w, dir)] else []) +
      (if sym && 0 <= m < CELLS && d.grid[m] == STAR then [Attempt(Adjacent(xy, l), d, tstxy, ld.w, dir)] else [])
    case FragmentPass =>
      if 0 <= tstxy < CELLS && d.grid[tstxy] != STAR then [Attempt(Fragment(xy, l), d, tstxy, ld.w, dir)] else []
  }

  /**
   * The attempts of one pass down the links1 list from entry l; `found`
   * says a grid was placed earlier in the list, which ends the fragment
   * pass unless the grid is symmetrical.
   */
  ghost function CellTries(lex: Lexicon, sym: bool, pass: Pass, d: Node, xy: int, dir: Dir, l: int, found: bool): seq<Attempt>
    requires LexShape(lex) && |d.grid| == CELLS && 0 <= l < |lex.linkdat|
    decreases l
  {
    if l == 0 || (pass == FragmentPass && !sym && found) then []
    else
      var ts := LinkTries(lex, sym, pass, d, xy, dir, l);
      ts + CellTries(lex, sym, pass, d, xy, dir, lex.linkdat[l].next, found || Successes(lex, sym, ts) > 0)
  }

  /** The attempts of one pass through the letter at xy in orientation dir: the whole links1 list of that letter. */
  ghost function CellWalk(lex: Lexicon, sym: bool, pass: Pass, d: Node, xy: int, dir: Dir): seq<Attempt>
    requires LexShape(lex) && GridOk(d.grid) && 0 <= xy < CELLS
  {
    CellTries(lex, sym, pass, d, xy, dir, lex.links1[d.grid[xy]], false)
  }

  /** The tight or adjacent pass at cell xy: across when the cell wants a word across, then down when it wants one down. */
  ghost function CellPair(lex: Lexicon, sym: bool, pass: Pass, d: Node, xy: int): seq<Attempt>
    requires LexShape(lex) && GridOk(d.grid) && |d.attr| == CELLS && 0 <= xy < CELLS
  {
    (if d.attr[xy] & Todo(H) != 0 then CellWalk(lex, sym, pass, d, xy, H) else []) +
    (if d.attr[xy] & Todo(V) != 0 then CellWalk(lex, sym, pass, d, xy, V) else [])
  }

  /**
   * The tight or adjacent pass down a level's diagonal from xy to the
   * border: cell after cell, ending after the first cell where a grid
   * was placed.
   */
  ghost function DiagTries(lex: Lexicon, sym: bool, pass: Pass, d: Node, xy: int): seq<Attempt>
    requires LexShape(lex) && GridOk(d.grid) && AttrOk(d.attr) && 0 <= xy < CELLS
    decreases CELLS - xy
  {
    if d.attr[xy] & BORDER != 0 then []
    else
      var ts := CellPair(lex, sym, pass, d, xy);
      if Successes(lex, sym, ts) > 0 then ts
      else
        DiagonalStep(xy);
        ts + DiagTries(lex, sym, pass, d, xy + GRIDMAX - 1)
  }

  // ---------------------------------------------------------------------
  // The fragment pass

  /**
   * The pruning of the fragment pass at interior cell xy in orientation
   * dir, in the order of scan_grid: clear the cell's hint, put stars before
   * and after it, and under symmetry star the mirror of the cell before,
   * then of the cell after, abandoning the scan (second component) at the
   * first of them that holds a letter.
   */
  function Pruning(sym: bool, d: Node, xy: int, dir: Dir): (r: (Node, bool))
    requires |d.grid| == CELLS && |d.attr| == CELLS && 0 <= xy < CELLS && !OnBorder(xy)
    ensures Pruned(d, r.0) && r.0.firstlevel == d.firstlevel && r.0.attr == Cleared(d.attr, xy, dir)
    ensures r.1 <==> sym && (IsChar(d.grid[Mirror(xy - Stride(dir))]) || IsChar(d.grid[Mirror(xy + Stride(dir))]))
  {
    InteriorNeighbours(xy);
    var s := Stride(dir);
    var n := d.(attr := Cleared(d.attr, xy, dir), grid := d.grid[xy - s := STAR][xy + s := STAR]);
    var r :=
      if !sym then (n, false)
      else if IsChar(n.grid[Mirror(xy - s)]) then (n, true)
      else
        var g := n.grid[Mirror(xy - s) := STAR];
        if IsChar(g[Mirror(xy + s)]) then (n.(grid := g), true)
        else (n.(grid := g[Mirror(xy + s) := STAR]), false);
    StarsPruned(d, r.0, xy, dir);
    r
  }

  /** The fragment pass at one cell and orientation: its attempts, the grid after it, the grids placed, and whether it abandons the scan. */
  datatype FragStep = FragStep(tries: seq<Attempt>, node: Node, cnt: nat, abort: bool)

  /**
   * The fragment pass through the letter at xy in orientation dir: the walk
   * of its links1 list and, when no grid was placed, the pruning around xy.
   */
  ghost function FragCell(lex: Lexicon, sym: bool, d: Node, xy: int, dir: Dir): (r: FragStep)
    requires LexShape(lex) && NodeOk(lex, d) && 0 <= xy < CELLS && !OnBorder(xy)
    ensures NodeOk(lex, r.node) && Pruned(d, r.node) && r.node.firstlevel == d.firstlevel
  {
    var ts := CellWalk(lex, sym, FragmentPass, d, xy, dir);
    var cnt := Successes(lex, sym, ts);
    if cnt == 0 then
      var p := Pruning(sym, d, xy, dir);
      PrunedOk(lex, d, p.0);
      FragStep(ts, p.0, 0, p.1)
    else
      PrunedRefl(d);
      FragStep(ts, d, cnt, false)
  }

  /** The first half of the fragment pass at cell xy: across, when the cell wants a word across. */
  ghost function FragAcross(lex: Lexicon, sym: bool, d: Node, xy: int): (r: FragStep)
    requires LexShape(lex) && NodeOk(lex, d) && 0 <= xy < CELLS && !OnBorder(xy)
    ensures NodeOk(lex, r.node) && Pruned(d, r.node) && r.node.firstlevel == d.firstlevel
  {
    if d.attr[xy] & Todo(H) != 0 then FragCell(lex, sym, d, xy, H)
    else
      PrunedRefl(d);
      FragStep([], d, 0, false)
  }

  /**
   * The fragment pass at cell xy: across when the cell wants a word across,
   * then, unless that abandoned the scan, down when the cell still wants a
   * word down.
   */
  ghost function FragAt(lex: Lexicon, sym: bool, d: Node, xy: int): (r: FragStep)
    requires LexShape(lex) && NodeOk(lex, d) && 0 <= xy < CELLS && !OnBorder(xy)
    ensures NodeOk(lex, r.node) && Pruned(d, r.node) && r.node.firstlevel == d.firstlevel
  {
    var h := FragAcross(lex, sym, d, xy);
    if !h.abort && h.node.attr[xy] & Todo(V) != 0 then
      var v := FragCell(lex, sym, h.node, xy, V);
      PrunedTrans(d, h.node, v.node);
      FragStep(h.tries + v.tries, v.node, h.cnt + v.cnt, v.abort)
    else h
  }

  /** The fragment pass over a level: its attempts, the grid after it, the grids placed at its last cell, whether a free cell was seen, and whether it abandoned the scan. */
  datatype FragRun = FragRun(tries: seq<Attempt>, node: Node, hasplace: nat, hasfree: bool, abort: bool)

  /**
   * The fragment pass down a level's diagonal from xy to the border, given
   * whether a free cell was seen before xy: cell after cell, ending after
   * the first cell where a grid was placed or the scan was abandoned.
   */
  ghost function FragWalk(lex: Lexicon, sym: bool, d: Node, xy: int, hasfree: bool): (r: FragRun)
    requires LexShape(lex) && NodeOk(lex, d) && 0 <= xy < CELLS
    ensures NodeOk(lex, r.node) && Pruned(d, r.node) && r.node.firstlevel == d.firstlevel
    ensures hasfree ==> r.hasfree
    decreases CELLS - xy
  {
    if d.attr[xy] & BORDER != 0 then
      PrunedRefl(d);
      FragRun([], d, 0, hasfree, false)
    else
      var hf := hasfree || d.grid[xy] == FREE;
      var a := FragAt(lex, sym, d, xy);
      if a.abort || a.cnt > 0 then FragRun(a.tries, a.node, a.cnt, hf, a.abort)
      else
        DiagonalStep(xy);
        var w := FragWalk(lex, sym, a.node, xy + GRIDMAX - 1, hf);
        PrunedTrans(d, a.node, w.node);
        FragRun(a.tries + w.tries, w.node, w.hasplace, w.hasfree, w.abort)
  }

  // ---------------------------------------------------------------------
  // Counting placements

  /** The placements of two runs of attempts add up. */
  lemma {:induction false} SuccessesAppend(lex: Lexicon, sym: bool, a: seq<Attempt>, b: seq<Attempt>)
    ensures Successes(lex, sym, a + b) == Successes(lex, sym, a) + Successes(lex, sym, b)
    decreases |a|
  {
    if a == [] {
      assert a + b == b;
    } else {
      assert (a + b)[0] == a[0];
      assert (a + b)[1..] == a[1..] + b;
      SuccessesAppend(lex, sym, a[1..], b);
    }
  }

  /** A single attempt counts one exactly when it places a grid. */
  lemma SuccessesOne(lex: Lexicon, sym: bool, t: Attempt)
    ensures Successes(lex, sym, [t]) == if Places(lex, sym, t) then 1 else 0
  {
    assert [t][1..] == [];
  }

  /** A run of attempts places nothing exactly when none of its attempts places a grid. */
  lemma {:induction false} SuccessesZero(lex: Lexicon, sym: bool, ts: seq<Attempt>)
    ensures Successes(lex, sym, ts) == 0 <==> forall t :: t in ts ==> !Places(lex, sym, t)
    decreases |ts|
  {
    if ts != [] {
      SuccessesZero(lex, sym, ts[1..]);
      assert ts == [ts[0]] + ts[1..];
      assert forall t :: t in ts <==> t == ts[0] || t in ts[1..];
    }
  }

  // ---------------------------------------------------------------------
  // One step of each loop of the sweep

  /** One entry of a links1 list: its attempts come first, then those of the rest of the list. */
  lemma CellStep(lex: Lexicon, sym: bool, pass: Pass, d: Node, xy: int, dir: Dir, l: int, found: bool, done: seq<Attempt>)
    requires LexShape(lex) && |d.grid| == CELLS && 0 < l < |lex.linkdat| && !(pass == FragmentPass && !sym && found)
    ensures var ts := LinkTries(lex, sym, pass, d, xy, dir, l);
      var rest := CellTries(lex, sym, pass, d, xy, dir, lex.linkdat[l].next, found || Successes(lex, sym, ts) > 0);
      done + CellTries(lex, sym, pass, d, xy, dir, l, found) == (done + ts) + rest &&
      Successes(lex, sym, CellTries(lex, sym, pass, d, xy, dir, l, found)) == Successes(lex, sym, ts) + Successes(lex, sym, rest)
  {
    var ts := LinkTries(lex, sym, pass, d, xy, dir, l);
    var rest := CellTries(lex, sym, pass, d, xy, dir, lex.linkdat[l].next, found || Successes(lex, sym, ts) > 0);
    SuccessesAppend(lex, sym, ts, rest);
    Concat3(done, ts, rest);
  }

  /** One cell of the tight or adjacent pass: its attempts, then, when they placed nothing, those of the next cell of the diagonal. */
  lemma DiagStep(lex: Lexicon, sym: bool, pass: Pass, d: Node, xy: int, done: seq<Attempt>)
    requires LexShape(lex) && GridOk(d.grid) && AttrOk(d.attr) && 0 <= xy < CELLS && d.attr[xy] & BORDER == 0
    ensures 0 <= xy + GRIDMAX - 1 < CELLS
    ensures var ts, all := CellPair(lex, sym, pass, d, xy), DiagTries(lex, sym, pass, d, xy);
      (Successes(lex, sym, ts) > 0 ==> all == ts) &&
      (Successes(lex, sym, ts) == 0 ==>
        done + all == (done + ts) + DiagTries(lex, sym, pass, d, xy + GRIDMAX - 1) &&
        Successes(lex, sym, all) == Successes(lex, sym, DiagTries(lex, sym, pass, d, xy + GRIDMAX - 1)))
  {
    assert !OnBorder(xy);
    DiagonalStep(xy);
    var ts := CellPair(lex, sym, pass, d, xy);
    if Successes(lex, sym, ts) == 0 {
      SuccessesAppend(lex, sym, ts, DiagTries(lex, sym, pass, d, xy + GRIDMAX - 1));
      Concat3(done, ts, DiagTries(lex, sym, pass, d, xy + GRIDMAX - 1));
    }
  }

  /**
   * Midway through the tight or adjacent pass down a diagonal: with `done`
   * recorded so far, the pass from cell xy brings the record to `goal`, and
   * `total` is what the pass from xy places.
   */
  ghost predicate DiagResumes(lex: Lexicon, sym: bool, pass: Pass, d: Node, xy: int,
                              done: seq<Attempt>, goal: seq<Attempt>, total: nat)
  {
    LexShape(lex) && NodeOk(lex, d) && 0 <= xy < CELLS &&
    goal == done + DiagTries(lex, sym, pass, d, xy) && total == Successes(lex, sym, DiagTries(lex, sym, pass, d, xy))
  }

  /** A pass down a diagonal that has not reached the border: one cell, then, when it placed nothing, the rest. */
  lemma DiagResumesStep(lex: Lexicon, sym: bool, pass: Pass, d: Node, xy: int,
                        done: seq<Attempt>, goal: seq<Attempt>, total: nat)
    requires DiagResumes(lex, sym, pass, d, xy, done, goal, total) && d.attr[xy] & BORDER == 0
    ensures 0 <= xy + GRIDMAX - 1 < CELLS
    ensures var ts := CellPair(lex, sym, pass, d, xy);
      (Successes(lex, sym, ts) > 0 ==> goal == done + ts && total == Successes(lex, sym, ts)) &&
      (Successes(lex, sym, ts) == 0 ==> DiagResumes(lex, sym, pass, d, xy + GRIDMAX - 1, done + ts, goal, total))
  {
    DiagStep(lex, sym, pass, d, xy, done);
  }

  /** A pass down a diagonal at the border is over: nothing more is tried or placed. */
  lemma DiagResumesEnd(lex: Lexicon, sym: bool, pass: Pass, d: Node, xy: int,
                       done: seq<Attempt>, goal: seq<Attempt>, total: nat)
    requires DiagResumes(lex, sym, pass, d, xy, done, goal, total) && d.attr[xy] & BORDER != 0
    ensures goal == done && total == 0
  {
    assert done + [] == done;
  }

  /** The fragment pass at one cell: across, then down when that did not abandon the scan and the cell still wants a word down. */
  lemma FragAtStep(lex: Lexicon, sym: bool, d: Node, xy: int, done: seq<Attempt>)
    requires LexShape(lex) && NodeOk(lex, d) && 0 <= xy < CELLS && !OnBorder(xy)
    ensures var h, a := FragAcross(lex, sym, d, xy), FragAt(lex, sym, d, xy);
      (!h.abort && h.node.attr[xy] & Todo(V) != 0 ==>
        var v := FragCell(lex, sym, h.node, xy, V);
        done + a.tries == (done + h.tries) + v.tries && a.node == v.node && a.cnt == h.cnt + v.cnt && a.abort == v.abort) &&
      (!(!h.abort && h.node.attr[xy] & Todo(V) != 0) ==> a == h)
  {
    var h := FragAcross(lex, sym, d, xy);
    if !h.abort && h.node.attr[xy] & Todo(V) != 0 {
      Concat3(done, h.tries, FragCell(lex, sym, h.node, xy, V).tries);
    }
  }

  /** One cell of the fragment pass: its attempts and pruning, then, unless it ended the pass, the rest of the diagonal on the pruned grid. */
  lemma FragWalkStep(lex: Lexicon, sym: bool, d: Node, xy: int, hasfree: bool, done: seq<Attempt>)
    requires LexShape(lex) && NodeOk(lex, d) && 0 <= xy < CELLS && d.attr[xy] & BORDER == 0
    ensures !OnBorder(xy) && 0 <= xy + GRIDMAX - 1 < CELLS
    ensures var hf, a := hasfree || d.grid[xy] == FREE, FragAt(lex, sym, d, xy);
      var w := FragWalk(lex, sym, d, xy, hasfree);
      (a.abort || a.cnt > 0 ==> w == FragRun(a.tries, a.node, a.cnt, hf, a.abort)) &&
      (!(a.abort || a.cnt > 0) ==>
        done + w.tries == (done + a.tries) + FragWalk(lex, sym, a.node, xy + GRIDMAX - 1, hf).tries &&
        w.(tries := []) == FragWalk(lex, sym, a.node, xy + GRIDMAX - 1, hf).(tries := []))
  {
    assert !OnBorder(xy);
    DiagonalStep(xy);
    var hf, a := hasfree || d.grid[xy] == FREE, FragAt(lex, sym, d, xy);
    if !(a.abort || a.cnt > 0) {
      Concat3(done, a.tries, FragWalk(lex, sym, a.node, xy + GRIDMAX - 1, hf).tries);
    }
  }

  /**
   * Midway through a fragment pass: with `done` recorded so far, the pass
   * from cell xy of grid d brings the record to `goal` and ends as `fin`.
   */
  ghost predicate FragResumes(lex: Lexicon, sym: bool, d: Node, xy: int, hasfree: bool,
                              done: seq<Attempt>, goal: seq<Attempt>, fin: FragRun)
  {
    LexShape(lex) && NodeOk(lex, d) && 0 <= xy < CELLS &&
    goal == done + FragWalk(lex, sym, d, xy, hasfree).tries &&
    FragWalk(lex, sym, d, xy, hasfree).(tries := []) == fin.(tries := [])
  }

  /** A fragment pass that has not reached the border: one cell, then the rest or the end. */
  lemma FragResumesStep(lex: Lexicon, sym: bool, d: Node, xy: int, hasfree: bool,
                        done: seq<Attempt>, goal: seq<Attempt>, fin: FragRun)
    requires FragResumes(lex, sym, d, xy, hasfree, done, goal, fin) && d.attr[xy] & BORDER == 0
    ensures !OnBorder(xy) && 0 <= xy + GRIDMAX - 1 < CELLS
    ensures var hf, a := hasfree || d.grid[xy] == FREE, FragAt(lex, sym, d, xy);
      (a.abort || a.cnt > 0 ==> goal == done + a.tries && fin == FragRun(fin.tries, a.node, a.cnt, hf, a.abort)) &&
      (!(a.abort || a.cnt > 0) ==> FragResumes(lex, sym, a.node, xy + GRIDMAX - 1, hf, done + a.tries, goal, fin))
  {
    FragWalkStep(lex, sym, d, xy, hasfree, done);
  }

  /** A fragment pass at the border is over: nothing more is tried. */
  lemma FragResumesEnd(lex: Lexicon, sym: bool, d: Node, xy: int, hasfree: bool,
                       done: seq<Attempt>, goal: seq<Attempt>, fin: FragRun)
    requires FragResumes(lex, sym, d, xy, hasfree, done, goal, fin) && d.attr[xy] & BORDER != 0
    ensures goal == done && fin == FragRun(fin.tries, d, 0, hasfree, false)
  {
    assert done + [] == done;
  }

  /** The tight pass over a level: none under symmetry. */
  ghost function TightTries(lex: Lexicon, sym: bool, d: Node, level: int): seq<Attempt>
    requires LexShape(lex) && NodeOk(lex, d) && 0 <= level <= GRIDMAX * 2 - 4
  {
    if sym then [] else DiagTries(lex, sym, TightPass, d, LevelStart(level))
  }

  lemma Concat3(x: seq<Attempt>, y: seq<Attempt>, z: seq<Attempt>)
    ensures x + (y + z) == (x + y) + z
  {
  }

  lemma Concat4(x: seq<Attempt>, y: seq<Attempt>, z: seq<Attempt>, w: seq<Attempt>)
    ensures x + (y + (z + w)) == ((x + y) + z) + w
  {
  }
}
