/**
 * What the sweep of scan_grid promises about the attempts it makes: each
 * is one of its three passes' own kind of attempt, through a letter of the
 * grid, made on the scanned grid or on that grid after pruning; and where
 * the hotspot of the grid it leaves can be.
 */
module SweepLaws {
  import opened Consts
  import opened Links
  import opened Grid
  import opened Trace
  import opened Hotspot
  import opened Sweep

  /** Every attempt of ts is an attempt of the sweep of d0: a pass's own attempt, on d0 or d0 pruned. */
  ghost predicate SweepTries(lex: Lexicon, sym: bool, d0: Node, ts: seq<Attempt>)
  {
    LexShape(lex) && forall i {:trigger SweepTryAt(lex, sym, d0, ts, i)} :: 0 <= i < |ts| ==> SweepTryAt(lex, sym, d0, ts, i)
  }

  /** Attempt i of ts is an attempt of the sweep of d0. */
  ghost predicate SweepTryAt(lex: Lexicon, sym: bool, d0: Node, ts: seq<Attempt>, i: int)
    requires 0 <= i < |ts|
  {
    LexShape(lex) && SweepTry(lex, sym, d0, ts[i])
  }

  /** SweepTries says what it means: each attempt of ts is the sweep's. */
  lemma SweepTriesAll(lex: Lexicon, sym: bool, d0: Node, ts: seq<Attempt>)
    ensures SweepTries(lex, sym, d0, ts) <==> LexShape(lex) && forall t :: t in ts ==> SweepTry(lex, sym, d0, t)
  {
    if LexShape(lex) && forall t :: t in ts ==> SweepTry(lex, sym, d0, t) {
      forall i | 0 <= i < |ts|
        ensures SweepTryAt(lex, sym, d0, ts, i)
      {
        assert ts[i] in ts;
      }
    }
    if SweepTries(lex, sym, d0, ts) {
      forall t | t in ts
        ensures SweepTry(lex, sym, d0, t)
      {
        var i :| 0 <= i < |ts| && ts[i] == t;
        assert SweepTryAt(lex, sym, d0, ts, i);
      }
    }
  }

  /** Attempts of the sweep of d0, one run after another, are attempts of the sweep of d0. */
  lemma SweepTriesAppend(lex: Lexicon, sym: bool, d0: Node, a: seq<Attempt>, b: seq<Attempt>)
    requires SweepTries(lex, sym, d0, a) && SweepTries(lex, sym, d0, b)
    ensures SweepTries(lex, sym, d0, a + b)
  {
    forall i | 0 <= i < |a + b|
      ensures SweepTryAt(lex, sym, d0, a + b, i)
    {
      if i < |a| {
        assert SweepTryAt(lex, sym, d0, a, i);
      } else {
        assert SweepTryAt(lex, sym, d0, b, i - |a|);
      }
    }
  }

  /** Attempts of the sweep of a grid that d0 prunes to are attempts of the sweep of d0. */
  lemma SweepTriesPruned(lex: Lexicon, sym: bool, d0: Node, d: Node, ts: seq<Attempt>)
    requires Pruned(d0, d) && SweepTries(lex, sym, d, ts)
    ensures SweepTries(lex, sym, d0, ts)
  {
    forall i | 0 <= i < |ts|
      ensures SweepTryAt(lex, sym, d0, ts, i)
    {
      assert SweepTryAt(lex, sym, d, ts, i);
      PrunedTrans(d0, d, ts[i].base);
    }
  }

  // ---------------------------------------------------------------------
  // Soundness, from one link up to the whole sweep

  /** The attempts for one entry of a letter's links1 list are the pass's own, through that letter. */
  lemma LinkSound(lex: Lexicon, sym: bool, pass: Pass, d0: Node, d: Node, xy: int, dir: Dir, l: int)
    requires LexShape(lex) && NodeOk(lex, d) && Pruned(d0, d) && (pass == TightPass ==> !sym)
    requires 0 <= xy < CELLS && !OnBorder(xy) && d.attr[xy] & Todo(dir) != 0
    requires 0 < l < |lex.linkdat| && Reachable(lex.linkdat, lex.links1[d.grid[xy]], l)
    ensures SweepTries(lex, sym, d0, LinkTries(lex, sym, pass, d, xy, dir, l))
  {
    ThroughLink(lex, Tight(xy, l), d, xy, dir, l);
    ThroughLink(lex, Adjacent(xy, l), d, xy, dir, l);
    ThroughLink(lex, Fragment(xy, l), d, xy, dir, l);
  }

  /** The attempts down a letter's links1 list from a reachable entry are the pass's own. */
  lemma {:induction false} CellSound(lex: Lexicon, sym: bool, pass: Pass, d0: Node, d: Node, xy: int, dir: Dir, l: int, found: bool)
    requires LexShape(lex) && NodeOk(lex, d) && Pruned(d0, d) && (pass == TightPass ==> !sym)
    requires 0 <= xy < CELLS && !OnBorder(xy) && d.attr[xy] & Todo(dir) != 0
    requires 0 <= l < |lex.linkdat| && (l != 0 ==> Reachable(lex.linkdat, lex.links1[d.grid[xy]], l))
    ensures SweepTries(lex, sym, d0, CellTries(lex, sym, pass, d, xy, dir, l, found))
    decreases l
  {
    if l != 0 && !(pass == FragmentPass && !sym && found) {
      var ts := LinkTries(lex, sym, pass, d, xy, dir, l);
      LinkSound(lex, sym, pass, d0, d, xy, dir, l);
      ReachableNext(lex.linkdat, lex.links1[d.grid[xy]], l);
      var rest := CellTries(lex, sym, pass, d, xy, dir, lex.linkdat[l].next, found || Successes(lex, sym, ts) > 0);
      CellSound(lex, sym, pass, d0, d, xy, dir, lex.linkdat[l].next, found || Successes(lex, sym, ts) > 0);
      SweepTriesAppend(lex, sym, d0, ts, rest);
    }
  }

  /** The tight or adjacent pass at one cell tries only the pass's own attempts. */
  lemma PairSound(lex: Lexicon, sym: bool, pass: Pass, d0: Node, d: Node, xy: int)
    requires LexShape(lex) && NodeOk(lex, d) && Pruned(d0, d) && (pass == TightPass ==> !sym)
    requires 0 <= xy < CELLS && !OnBorder(xy)
    ensures SweepTries(lex, sym, d0, CellPair(lex, sym, pass, d, xy))
  {
    var head := lex.links1[d.grid[xy]];
    if d.attr[xy] & Todo(H) != 0 {
      CellSound(lex, sym, pass, d0, d, xy, H, head, false);
    }
    if d.attr[xy] & Todo(V) != 0 {
      CellSound(lex, sym, pass, d0, d, xy, V, head, false);
    }
    SweepTriesAppend(lex, sym, d0,
      if d.attr[xy] & Todo(H) != 0 then CellWalk(lex, sym, pass, d, xy, H) else [],
      if d.attr[xy] & Todo(V) != 0 then CellWalk(lex, sym, pass, d, xy, V) else []);
  }

  /** The tight or adjacent pass down a diagonal tries only the pass's own attempts. */
  lemma {:induction false} DiagSound(lex: Lexicon, sym: bool, pass: Pass, d0: Node, d: Node, xy: int)
    requires LexShape(lex) && NodeOk(lex, d) && Pruned(d0, d) && (pass == TightPass ==> !sym) && 0 <= xy < CELLS
    ensures SweepTries(lex, sym, d0, DiagTries(lex, sym, pass, d, xy))
    decreases CELLS - xy
  {
    if d.attr[xy] & BORDER == 0 {
      var ts := PairNext(lex, sym, pass, d0, d, xy);
      if Successes(lex, sym, ts) == 0 {
        DiagSound(lex, sym, pass, d0, d, xy + GRIDMAX - 1);
        SweepTriesAppend(lex, sym, d0, ts, DiagTries(lex, sym, pass, d, xy + GRIDMAX - 1));
      }
    }
  }

  /** A cell of the diagonal off the border: the pass there is sound, and the diagonal goes on inside the grid. */
  lemma PairNext(lex: Lexicon, sym: bool, pass: Pass, d0: Node, d: Node, xy: int) returns (ts: seq<Attempt>)
    requires LexShape(lex) && NodeOk(lex, d) && Pruned(d0, d) && (pass == TightPass ==> !sym)
    requires 0 <= xy < CELLS && d.attr[xy] & BORDER == 0
    ensures !OnBorder(xy) && 0 <= xy + GRIDMAX - 1 < CELLS
    ensures ts == CellPair(lex, sym, pass, d, xy) && SweepTries(lex, sym, d0, ts)
  {
    assert !OnBorder(xy);
    DiagonalStep(xy);
    ts := CellPair(lex, sym, pass, d, xy);
    PairSound(lex, sym, pass, d0, d, xy);
  }

  /** The fragment pass at one cell and orientation tries only fragment attempts on the grid it is given. */
  lemma FragCellSound(lex: Lexicon, sym: bool, d0: Node, d: Node, xy: int, dir: Dir)
    requires LexShape(lex) && NodeOk(lex, d) && Pruned(d0, d)
    requires 0 <= xy < CELLS && !OnBorder(xy) && d.attr[xy] & Todo(dir) != 0
    ensures SweepTries(lex, sym, d0, FragCell(lex, sym, d, xy, dir).tries)
  {
    CellSound(lex, sym, FragmentPass, d0, d, xy, dir, lex.links1[d.grid[xy]], false);
  }

  /** The fragment pass at one cell: across on the grid, then down on the grid as the pass across left it. */
  lemma FragAtSound(lex: Lexicon, sym: bool, d0: Node, d: Node, xy: int)
    requires LexShape(lex) && NodeOk(lex, d) && Pruned(d0, d) && 0 <= xy < CELLS && !OnBorder(xy)
    ensures SweepTries(lex, sym, d0, FragAt(lex, sym, d, xy).tries)
  {
    var h := FragAcross(lex, sym, d, xy);
    if d.attr[xy] & Todo(H) != 0 {
      FragCellSound(lex, sym, d0, d, xy, H);
    }
    if !h.abort && h.node.attr[xy] & Todo(V) != 0 {
      PrunedTrans(d0, d, h.node);
      FragCellSound(lex, sym, d0, h.node, xy, V);
      SweepTriesAppend(lex, sym, d0, h.tries, FragCell(lex, sym, h.node, xy, V).tries);
    }
  }

  /** The fragment pass down a diagonal tries only fragment attempts, each on the grid pruned so far. */
  lemma {:induction false} FragWalkSound(lex: Lexicon, sym: bool, d0: Node, d: Node, xy: int, hasfree: bool)
    requires LexShape(lex) && NodeOk(lex, d) && Pruned(d0, d) && 0 <= xy < CELLS
    ensures SweepTries(lex, sym, d0, FragWalk(lex, sym, d, xy, hasfree).tries)
    decreases CELLS - xy
  {
    if d.attr[xy] & BORDER == 0 {
      var a := FragAtNext(lex, sym, d0, d, xy);
      if !(a.abort || a.cnt > 0) {
        var hf := hasfree || d.grid[xy] == FREE;
        FragWalkSound(lex, sym, d0, a.node, xy + GRIDMAX - 1, hf);
        SweepTriesAppend(lex, sym, d0, a.tries, FragWalk(lex, sym, a.node, xy + GRIDMAX - 1, hf).tries);
      }
    }
  }

  /** A cell of the diagonal off the border: the fragment pass there is sound, leaves d0 pruned, and the diagonal goes on inside the grid. */
  lemma FragAtNext(lex: Lexicon, sym: bool, d0: Node, d: Node, xy: int) returns (a: FragStep)
    requires LexShape(lex) && NodeOk(lex, d) && Pruned(d0, d) && 0 <= xy < CELLS && d.attr[xy] & BORDER == 0
    ensures !OnBorder(xy) && 0 <= xy + GRIDMAX - 1 < CELLS
    ensures a == FragAt(lex, sym, d, xy) && SweepTries(lex, sym, d0, a.tries)
    ensures NodeOk(lex, a.node) && Pruned(d0, a.node)
  {
    assert !OnBorder(xy);
    DiagonalStep(xy);
    a := FragAt(lex, sym, d, xy);
    FragAtSound(lex, sym, d0, d, xy);
    PrunedTrans(d0, d, a.node);
  }

  // ---------------------------------------------------------------------
  // Where the hotspot can move

  /**
   * A fragment pass that walks level l from a cell on its walk, with the
   * level filled right of that cell, and that ends having placed nothing,
   * abandoned nothing and seen no free cell, leaves the level filled.
   */
  lemma {:induction false} FragWalkFills(lex: Lexicon, sym: bool, d: Node, xy: int, hasfree: bool, l: int)
    requires LexShape(lex) && NodeOk(lex, d) && 0 <= l && OnWalk(l, xy) && Covered(d.grid, l, Col(xy))
    ensures var w := FragWalk(lex, sym, d, xy, hasfree);
      !w.abort && w.hasplace == 0 && !w.hasfree ==> Filled(w.node.grid, l)
    decreases CELLS - xy
  {
    if d.attr[xy] & BORDER != 0 {
      assert OnBorder(xy);
      if !hasfree {
        WalkEnds(l, xy, d.grid);
      }
    } else {
      assert !OnBorder(xy);
      var hf, a := hasfree || d.grid[xy] == FREE, FragAt(lex, sym, d, xy);
      if !(a.abort || a.cnt > 0) && !hf {
        WalkNext(l, xy, d.grid);
        CoveredPruned(d, a.node, l, Col(xy + GRIDMAX - 1));
        FragWalkFills(lex, sym, a.node, xy + GRIDMAX - 1, hf, l);
      }
    }
  }
}
