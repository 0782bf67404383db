/**
 * The placement attempts of the search, as a record of what scan_grid and
 * main ask place_hword/place_vword to do and why, and what the sweep of
 * scan_grid may do to the grid it scans before it tries a word.
 */
module Trace {
  import opened Consts
  import opened Links
  import opened Grid
  import opened Hotspot

  /** What led the search to try a placement. */
  datatype Reason =
    | Seed                          // the starting words of main
    | Symmetry                      // the symmetry step: the mirror word
    | Pair(xy: int, l: int)         // the adjacency step: entry l for the pending crossing at xy
    | Tight(cell: int, link: int)   // the sweep's tight pass, through letter cell `cell`
    | Adjacent(cell: int, link: int)// the sweep's adjacent pass
    | Fragment(cell: int, link: int)// the sweep's fragment pass

  /** One call of place_hword/place_vword: grid base, anchor xybase, word w, orientation dir. */
  datatype Attempt = Attempt(why: Reason, base: Node, xybase: int, w: int, dir: Dir)

  // ---------------------------------------------------------------------
  // The attempts of the steps that do not look at the result

  /** The attempts of a walk down the link chain from l, each anchored at that entry's offset from xy. */
  ghost function ChainTries(lex: Lexicon, base: Node, xy: int, dir: Dir, l: int): seq<Attempt>
    requires LexShape(lex) && 0 <= l < |lex.linkdat|
    decreases l
  {
    if l == 0 then []
    else
      var ld := lex.linkdat[l];
      [Attempt(Pair(xy, l), base, xy + ld.ofs * Stride(dir), ld.w, dir)] + ChainTries(lex, base, xy, dir, ld.next)
  }

  /** One step down a link chain: the record grows by the attempt of entry l, and the walk goes on from the next entry. */
  lemma ChainStep(lex: Lexicon, base: Node, xy: int, dir: Dir, l: int, done: seq<Attempt>)
    requires LexShape(lex) && 0 < l < |lex.linkdat|
    ensures
      var ld := lex.linkdat[l];
      done + ChainTries(lex, base, xy, dir, l) ==
      (done + [Attempt(Pair(xy, l), base, xy + ld.ofs * Stride(dir), ld.w, dir)]) + ChainTries(lex, base, xy, dir, ld.next)
  {
  }

  /** One step of the symmetry step: the record grows by the attempt of word n-1, if any, and the walk goes on from n-1. */
  lemma SymStep(lex: Lexicon, base: Node, dir: Dir, n: int, done: seq<Attempt>)
    requires 0 < n <= |lex.words|
    ensures n - 1 !in base.words && |lex.words[n - 1]| == base.symlen ==>
      done + SymTries(lex, base, dir, n) == (done + [Attempt(Symmetry, base, base.symxy, n - 1, dir)]) + SymTries(lex, base, dir, n - 1)
    ensures !(n - 1 !in base.words && |lex.words[n - 1]| == base.symlen) ==>
      done + SymTries(lex, base, dir, n) == done + SymTries(lex, base, dir, n - 1)
  {
  }

  /**
   * Every attempt of a chain walk is made on the same grid, in the same
   * orientation, with a real word, by an entry on the chain.
   */
  lemma {:induction false} ChainTriesShape(lex: Lexicon, base: Node, xy: int, dir: Dir, l: int)
    requires LexShape(lex) && 0 <= l < |lex.linkdat|
    ensures forall t :: t in ChainTries(lex, base, xy, dir, l) ==>
      t.base == base && t.dir == dir && 0 <= t.w < |lex.words| &&
      t.why.Pair? && t.why.xy == xy && 1 <= t.why.l <= l && Reachable(lex.linkdat, l, t.why.l) &&
      t.xybase == xy + lex.linkdat[t.why.l].ofs * Stride(dir) && t.w == lex.linkdat[t.why.l].w
    decreases l
  {
    if l != 0 {
      ChainTriesShape(lex, base, xy, dir, lex.linkdat[l].next);
    }
  }

  /**
   * The attempts of the symmetry step: words n-1 down to 0 that are not yet
   * placed and have the length of the word to mirror, all at the mirror anchor.
   */
  ghost function SymTries(lex: Lexicon, base: Node, dir: Dir, n: int): seq<Attempt>
    requires 0 <= n <= |lex.words|
    decreases n
  {
    if n == 0 then []
    else
      (if n - 1 !in base.words && |lex.words[n - 1]| == base.symlen then [Attempt(Symmetry, base, base.symxy, n - 1, dir)] else []) +
      SymTries(lex, base, dir, n - 1)
  }

  /** The symmetry step tries each word of the mirror length at most once, and never a placed word. */
  lemma {:induction false} SymTriesShape(lex: Lexicon, base: Node, dir: Dir, n: int)
    requires 0 <= n <= |lex.words|
    ensures forall j :: 0 <= j < |SymTries(lex, base, dir, n)| ==>
      var t := SymTries(lex, base, dir, n)[j];
      t.base == base && t.dir == dir && t.xybase == base.symxy && 0 <= t.w < n &&
      t.w !in base.words && |lex.words[t.w]| == base.symlen
    ensures forall j, k :: 0 <= j < k < |SymTries(lex, base, dir, n)| ==>
      SymTries(lex, base, dir, n)[j].w > SymTries(lex, base, dir, n)[k].w
    decreases n
  {
    if n > 0 {
      SymTriesShape(lex, base, dir, n - 1);
    }
  }

  /** The anchor of a starting word of length len under symmetry: centred on the middle row. */
  function CentreAnchor(len: int): int
  {
    (GRIDMAX / 2 + 2 - len) + (GRIDMAX / 2) * GRIDMAX
  }

  /**
   * The starting attempts of main, words n-1 down to 0: under symmetry every
   * word of at least 5 codes, horizontally through the centre of the grid;
   * otherwise every word, horizontally at the start of row 1.
   */
  ghost function SeedTries(lex: Lexicon, sym: bool, base: Node, n: int): seq<Attempt>
    requires 0 <= n <= |lex.words|
    decreases n
  {
    if n == 0 then []
    else if sym then
      (if |lex.words[n - 1]| >= 5 then [Attempt(Seed, SeedBase(sym, base), CentreAnchor(|lex.words[n - 1]|), n - 1, H)] else []) +
      SeedTries(lex, sym, base, n - 1)
    else
      [Attempt(Seed, SeedBase(sym, base), GRIDMAX, n - 1, H)] + SeedTries(lex, sym, base, n - 1)
  }

  /** The start grid as main tries the starting words on it: hash reset under symmetry, hotspot at level 2 otherwise. */
  function SeedBase(sym: bool, base: Node): Node
  {
    if sym then base.(hash := 0) else base.(firstlevel := 2)
  }

  /** One starting word: the attempt for word n-1, if main makes one, comes before those of the lower words. */
  lemma SeedStep(lex: Lexicon, sym: bool, base: Node, n: int, done: seq<Attempt>)
    requires 0 < n <= |lex.words|
    ensures sym && |lex.words[n - 1]| >= 5 ==>
      done + SeedTries(lex, sym, base, n) ==
      (done + [Attempt(Seed, SeedBase(sym, base), CentreAnchor(|lex.words[n - 1]|), n - 1, H)]) + SeedTries(lex, sym, base, n - 1)
    ensures sym && |lex.words[n - 1]| < 5 ==>
      done + SeedTries(lex, sym, base, n) == done + SeedTries(lex, sym, base, n - 1)
    ensures !sym ==>
      done + SeedTries(lex, sym, base, n) ==
      (done + [Attempt(Seed, SeedBase(sym, base), GRIDMAX, n - 1, H)]) + SeedTries(lex, sym, base, n - 1)
  {
  }

  // ---------------------------------------------------------------------
  // The sweep

  /**
   * What the sweep of scan_grid may have done to grid a by the time it scans
   * grid b: moved the hotspot forward, put stars on cells and cleared hint
   * bits, and nothing else.
   */
  predicate Pruned(a: Node, b: Node)
  {
    |a.grid| == CELLS && |b.grid| == CELLS && |a.attr| == CELLS && |b.attr| == CELLS &&
    b == a.(firstlevel := b.firstlevel, grid := b.grid, attr := b.attr) &&
    a.firstlevel <= b.firstlevel &&
    forall xy {:trigger PrunedAt(a, b, xy)} :: 0 <= xy < CELLS ==> PrunedAt(a, b, xy)
  }

  /** Cell xy of b is cell xy of a or a star, and its hints are a's with bits cleared but the border bit kept. */
  predicate PrunedAt(a: Node, b: Node, xy: int)
    requires |a.grid| == CELLS && |b.grid| == CELLS && |a.attr| == CELLS && |b.attr| == CELLS && 0 <= xy < CELLS
  {
    (b.grid[xy] == a.grid[xy] || b.grid[xy] == STAR) &&
    b.attr[xy] & a.attr[xy] == b.attr[xy] && b.attr[xy] & BORDER == a.attr[xy] & BORDER
  }

  lemma PrunedRefl(a: Node)
    requires |a.grid| == CELLS && |a.attr| == CELLS
    ensures Pruned(a, a)
  {
    forall xy | 0 <= xy < CELLS
      ensures PrunedAt(a, a, xy)
    {
    }
  }

  lemma PrunedTrans(a: Node, b: Node, c: Node)
    requires Pruned(a, b) && Pruned(b, c)
    ensures Pruned(a, c)
  {
    forall xy | 0 <= xy < CELLS
      ensures PrunedAt(a, c, xy)
    {
      assert PrunedAt(a, b, xy) && PrunedAt(b, c, xy);
      AndAssoc(c.attr[xy], b.attr[xy], a.attr[xy]);
    }
  }

  /** The hints with orientation dir's bit of cell xy cleared (`*attr &= ~TODOH` or `~TODOV`). */
  function Cleared(a: seq<bv8>, xy: int, dir: Dir): (r: seq<bv8>)
    requires 0 <= xy < |a|
    ensures |r| == |a| && r[xy] & Todo(dir) == 0
    ensures r[xy] & a[xy] == r[xy] && r[xy] & BORDER == a[xy] & BORDER
    ensures forall c :: 0 <= c < |a| && c != xy ==> r[c] == a[c]
  {
    var x := a[xy];
    assert (x & !Todo(dir)) & x == x & !Todo(dir);
    assert (x & !Todo(dir)) & BORDER == x & BORDER;
    a[xy := x & !Todo(dir)]
  }

  /** Clearing a hint bit and putting stars on cells is a pruning. */
  lemma StarsPruned(a: Node, b: Node, xy: int, dir: Dir)
    requires |a.grid| == CELLS && |b.grid| == CELLS && |a.attr| == CELLS && 0 <= xy < CELLS
    requires b == a.(grid := b.grid, attr := Cleared(a.attr, xy, dir))
    requires forall c :: 0 <= c < CELLS ==> b.grid[c] == a.grid[c] || b.grid[c] == STAR
    ensures Pruned(a, b)
  {
    forall c | 0 <= c < CELLS
      ensures PrunedAt(a, b, c)
    {
    }
  }

  lemma AndAssoc(x: bv8, y: bv8, z: bv8)
    requires x & y == x && y & z == y
    ensures x & z == x
  {
    assert x & z == (x & y) & z == x & (y & z);
  }

  /** Pruning keeps a grid well formed: stars are codes, and the border is untouched. */
  lemma PrunedOk(lex: Lexicon, a: Node, b: Node)
    requires NodeOk(lex, a) && Pruned(a, b)
    ensures NodeOk(lex, b)
  {
    forall xy | 0 <= xy < CELLS
      ensures IsCode(b.grid[xy]) && BorderStar(b.grid, xy)
      ensures (b.attr[xy] & BORDER != 0) <==> OnBorder(xy)
      ensures a.numword == 0 ==> !IsLetter(b.grid[xy])
    {
      assert PrunedAt(a, b, xy) && BorderStar(a.grid, xy);
    }
  }

  /** Pruning leaves the border bits alone: they still mark the border. */
  lemma PrunedBorder(a: Node, b: Node, xy: int)
    requires Pruned(a, b) && AttrOk(a.attr) && 0 <= xy < CELLS
    ensures (b.attr[xy] & BORDER != 0) <==> OnBorder(xy)
  {
    assert PrunedAt(a, b, xy);
  }

  /** Moving the hotspot further forward is still a pruning. */
  lemma AdvancePruned(a: Node, b: Node, l: int)
    requires Pruned(a, b) && b.firstlevel <= l
    ensures Pruned(a, b.(firstlevel := l))
  {
    forall xy | 0 <= xy < CELLS
      ensures PrunedAt(a, b.(firstlevel := l), xy)
    {
      assert PrunedAt(a, b, xy);
    }
  }

  /** A filled level stays filled: pruning only puts stars. */
  lemma FilledPruned(a: Node, b: Node, l: int)
    requires Pruned(a, b) && Filled(a.grid, l)
    ensures Filled(b.grid, l)
  {
    forall c | 0 <= c < CELLS && !OnBorder(c) && Level(c) == l
      ensures b.grid[c] != FREE
    {
      assert PrunedAt(a, b, c);
    }
  }

  /** A covered stretch of a level stays covered: pruning only puts stars. */
  lemma CoveredPruned(a: Node, b: Node, l: int, col: int)
    requires Pruned(a, b) && Covered(a.grid, l, col)
    ensures Covered(b.grid, l, col)
  {
    forall c | 0 <= c < CELLS && !OnBorder(c) && Level(c) == l && Col(c) > col
      ensures b.grid[c] != FREE
    {
      assert PrunedAt(a, b, c);
    }
  }

  /**
   * Attempt t anchors its word so that one of its letters lands on the
   * scanned cell `cell`: the word is entry `link` of the list links1 of the
   * letter there, the cell still wants a word in t's orientation, and the
   * anchor is the cell moved back by the entry's offset.
   */
  predicate Through(lex: Lexicon, t: Attempt, cell: int, link: int)
    requires LexShape(lex)
  {
    0 <= cell < CELLS && !OnBorder(cell) && |t.base.grid| == CELLS && |t.base.attr| == CELLS &&
    t.base.attr[cell] & Todo(t.dir) != 0 && 0 <= t.base.grid[cell] < 32 &&
    1 <= link < |lex.linkdat| && Reachable(lex.linkdat, lex.links1[t.base.grid[cell]], link) &&
    t.w == lex.linkdat[link].w && t.xybase == cell + lex.linkdat[link].ofs * Stride(t.dir)
  }

  /** The attempt for entry l of the links1 list of the letter at an interior cell passes through that cell. */
  lemma ThroughLink(lex: Lexicon, why: Reason, d: Node, xy: int, dir: Dir, l: int)
    requires LexShape(lex) && GridOk(d.grid) && |d.attr| == CELLS
    requires 0 <= xy < CELLS && !OnBorder(xy) && d.attr[xy] & Todo(dir) != 0
    requires 0 < l < |lex.linkdat| && Reachable(lex.linkdat, lex.links1[d.grid[xy]], l)
    ensures Through(lex, Attempt(why, d, xy + lex.linkdat[l].ofs * Stride(dir), lex.linkdat[l].w, dir), xy, l)
  {
  }

  /**
   * The filter of each pass of the sweep: the tight pass (never under
   * symmetry) only anchors on the hotspot level; the adjacent pass only
   * anchors on a star, or under symmetry where the mirror of the last cell
   * is a star; the fragment pass only anchors where there is no star.
   */
  predicate PassTry(lex: Lexicon, sym: bool, t: Attempt)
    requires LexShape(lex)
  {
    match t.why
    case Tight(cell, link) =>
      Through(lex, t, cell, link) && !sym && 0 <= t.xybase < CELLS && Level(t.xybase) == t.base.firstlevel
    case Adjacent(cell, link) =>
      Through(lex, t, cell, link) && 0 <= t.w < |lex.words| &&
      ((0 <= t.xybase < CELLS && t.base.grid[t.xybase] == STAR) ||
       (sym && 0 <= Mirror(LastCell(t.xybase, |lex.words[t.w]|, t.dir)) < CELLS &&
        t.base.grid[Mirror(LastCell(t.xybase, |lex.words[t.w]|, t.dir))] == STAR))
    case Fragment(cell, link) =>
      Through(lex, t, cell, link) && 0 <= t.xybase < CELLS && t.base.grid[t.xybase] != STAR
    case _ => false
  }

  /** An attempt of the sweep of grid d0: on a pruned copy of d0, through the filter of its pass. */
  predicate SweepTry(lex: Lexicon, sym: bool, d0: Node, t: Attempt)
    requires LexShape(lex)
  {
    Pruned(d0, t.base) && PassTry(lex, sym, t)
  }

  /** The link the sweep reaches. */
  function LinkOf(t: Attempt): int
  {
    match t.why
    case Tight(_, link) => link
    case Adjacent(_, link) => link
    case Fragment(_, link) => link
    case _ => 0
  }

  /** The cell the sweep scans. */
  function CellOfTry(t: Attempt): int
  {
    match t.why
    case Tight(cell, _) => cell
    case Adjacent(cell, _) => cell
    case Fragment(cell, _) => cell
    case _ => 0
  }

  /**
   * Every attempt of the sweep lines its word up with the scanned cell: the
   * code of the word at the entry's position is the letter on that cell, it
   * is a letter and not a delimiting star, and it lands exactly on the cell.
   */
  lemma SweepLetter(lex: Lexicon, sym: bool, d0: Node, t: Attempt)
    requires LexOk(lex) && SweepTry(lex, sym, d0, t)
    ensures var i, p := -lex.linkdat[LinkOf(t)].ofs, lex.words[t.w];
      1 <= i <= |p| - 2 && p[i] == t.base.grid[CellOfTry(t)] && IsLetter(p[i]) &&
      CellOf(t.xybase, i, t.dir) == CellOfTry(t)
  {
    var cell, link := CellOfTry(t), LinkOf(t);
    assert Through(lex, t, cell, link);
    Links1Sound(lex, t.base.grid[cell], link);
  }

  /** The chain walk stays on the chain: the successor of a reachable entry is reachable, or the end. */
  lemma {:induction false} ReachableNext(ld: seq<Link>, head: int, l: int)
    requires LinksDescend(ld) && 0 <= head < |ld| && Reachable(ld, head, l)
    ensures 0 <= l < |ld| && (ld[l].next != 0 ==> Reachable(ld, head, ld[l].next))
    decreases head
  {
    if head != l {
      ReachableNext(ld, ld[head].next, l);
    }
  }
}
