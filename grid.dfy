/**
 * One candidate grid (struct node) and the read-only legality test of a
 * word at an anchor (test_hword / test_vword).
 */
module Grid {
  import opened Consts
  import opened Words
  import opened Links

  /** The pending symmetry anchor: none, or the orientation of the word to mirror. */
  datatype SymDir = NoSym | Sym(dir: Dir)

  /**
   * A worklist entry (one index of adjdir/adjxy/adjl): the orientation of
   * the crossing word still to be placed, the cell where its window starts
   * and its link (a link list head while recorded, the confirming entry after).
   */
  datatype Adj = Adj(dir: Dir, xy: int, l: int)

  /**
   * A grid state. The struct is copied as a whole (memcpy), so it is a value
   * here. adj is the worklist of crossings whose word is not yet placed:
   * the live prefix adjdir/adjxy/adjl[0..numadj) of the parallel arrays,
   * one entry per index, so numadj is |adj| and always below ADJMAX.
   */
  datatype Node = Node(
    words: set<int>,                   // placed words (the 256-bit set)
    numword: int, numchar: int, numconn: int,
    hash: int,                         // uint32_t
    firstlevel: int, lastlevel: int,   // hotspot
    symdir: SymDir, symxy: int, symlen: int,
    adj: seq<Adj>,
    grid: seq<int>, attr: seq<bv8>)

  predicate GridOk(g: seq<int>)
  {
    |g| == CELLS &&
    (forall xy :: 0 <= xy < CELLS ==> IsCode(g[xy])) &&
    (forall xy {:trigger BorderStar(g, xy)} :: 0 <= xy < CELLS ==> BorderStar(g, xy))
  }

  /** A border cell holds the delimiter. */
  predicate BorderStar(g: seq<int>, xy: int)
    requires 0 <= xy < |g|
  {
    OnBorder(xy) ==> g[xy] == STAR
  }

  predicate AttrOk(a: seq<bv8>)
  {
    |a| == CELLS &&
    forall xy :: 0 <= xy < CELLS ==> ((a[xy] & BORDER != 0) <==> OnBorder(xy))
  }

  predicate NoLetters(g: seq<int>)
  {
    forall xy :: 0 <= xy < |g| ==> !IsLetter(g[xy])
  }

  /** A grid state as every operation of the engine keeps it. */
  predicate NodeOk(lex: Lexicon, d: Node)
  {
    GridOk(d.grid) && AttrOk(d.attr) &&
    |d.adj| < ADJMAX && (forall e :: e in d.adj ==> 0 < e.l < |lex.linkdat|) &&
    (forall w :: w in d.words ==> 0 <= w < |lex.words|) && |d.words| == d.numword &&
    d.numchar >= 0 && d.numconn >= 0 && 0 <= d.hash < HASHMOD && d.firstlevel >= 0 &&
    (d.numword == 0 ==> NoLetters(d.grid)) &&
    (d.numword > 0 ==> d.numchar > 0)
  }

  /** A free cell is never on the border, so its four neighbours exist. */
  lemma FreeIsInterior(g: seq<int>, xy: int)
    requires GridOk(g) && 0 <= xy < CELLS && g[xy] == FREE
    ensures !OnBorder(xy)
    ensures 0 <= xy - GRIDMAX && xy + GRIDMAX < CELLS && 0 <= xy - 1 && xy + 1 < CELLS
  {
    assert BorderStar(g, xy);
    InteriorNeighbours(xy);
  }

  // ---------------------------------------------------------------------
  // Legality of a word at an anchor

  /** The last cell of a word of length len anchored at xybase. */
  function LastCell(xybase: int, len: int, dir: Dir): int
  {
    CellOf(xybase, len - 1, dir)
  }

  /** The bounds check: every cell of the word lies inside the array. */
  predicate Fits(xybase: int, len: int, dir: Dir)
  {
    0 <= xybase && LastCell(xybase, len, dir) < CELLS
  }

  /** Under symmetry the reflected end cells are reserved for the mirror word. */
  predicate SymOk(sym: bool, g: seq<int>, xybase: int, len: int, dir: Dir)
    requires |g| == CELLS && len >= 1 && Fits(xybase, len, dir)
  {
    !sym || (!IsChar(g[Mirror(xybase)]) && !IsChar(g[Mirror(LastCell(xybase, len, dir))]))
  }

  /** The cell before and after xy across orientation dir. */
  function Before(xy: int, dir: Dir): int { xy - Stride(Across(dir)) }
  function After(xy: int, dir: Dir): int { xy + Stride(Across(dir)) }

  /** A letter put at free cell xy touches a letter across dir. */
  predicate Crosses(g: seq<int>, xy: int, dir: Dir)
    requires GridOk(g) && 0 <= xy < CELLS && g[xy] == FREE
  {
    FreeIsInterior(g, xy);
    IsChar(g[Before(xy, dir)]) || IsChar(g[After(xy, dir)])
  }

  /** The cell where the crossing word's window starts: xy itself when the cell before is free. */
  function CrossPos(g: seq<int>, xy: int, dir: Dir): int
    requires GridOk(g) && 0 <= xy < CELLS && g[xy] == FREE
  {
    FreeIsInterior(g, xy);
    if g[Before(xy, dir)] == FREE then xy else Before(xy, dir)
  }

  /**
   * The link list that must hold the crossing formed by letter c at free
   * cell xy: the 2-code window (c, after) or (before, c) when one neighbour
   * is free, otherwise the 3-code window (before, c, after).
   */
  function CrossHead(lex: Lexicon, g: seq<int>, xy: int, c: int, dir: Dir): (l: int)
    requires LexShape(lex) && GridOk(g) && 0 <= xy < CELLS && g[xy] == FREE && IsLetter(c)
    ensures 0 <= l < |lex.linkdat|
  {
    FreeIsInterior(g, xy);
    var up, dn := g[Before(xy, dir)], g[After(xy, dir)];
    if up == FREE then lex.links2[Key2(c, dn)]
    else if dn == FREE then lex.links2[Key2(up, c)]
    else lex.links3[Key3(up, c, dn)]
  }

  /** Code c may go to cell xy: no conflict, and a crossing it forms exists in the lexicon. */
  predicate CellOk(lex: Lexicon, g: seq<int>, xy: int, c: int, dir: Dir)
    requires LexShape(lex) && GridOk(g) && 0 <= xy < CELLS && (IsLetter(c) || c == STAR)
  {
    g[xy] == c ||
    (g[xy] == FREE && (c == STAR || !Crosses(g, xy, dir) || CrossHead(lex, g, xy, c, dir) != 0))
  }

  lemma WordCode(lex: Lexicon, w: int, k: int)
    requires LexShape(lex) && 0 <= w < |lex.words| && 0 <= k < |lex.words[w]|
    ensures IsLetter(lex.words[w][k]) || lex.words[w][k] == STAR
    ensures (lex.words[w][k] == STAR) <==> (k == 0 || k == |lex.words[w]| - 1)
  {
  }

  /** Code k of word w may go to its cell. */
  predicate CodeOk(lex: Lexicon, g: seq<int>, xybase: int, w: int, dir: Dir, k: int)
    requires LexShape(lex) && GridOk(g) && 0 <= w < |lex.words| && Fits(xybase, |lex.words[w]|, dir)
    requires 0 <= k < |lex.words[w]|
  {
    WordCode(lex, w, k);
    CellOk(lex, g, CellOf(xybase, k, dir), lex.words[w][k], dir)
  }

  /** The first k codes of word w may go to their cells, checked in order as the scan does. */
  predicate CodesOk(lex: Lexicon, g: seq<int>, xybase: int, w: int, dir: Dir, k: int)
    requires LexShape(lex) && GridOk(g) && 0 <= w < |lex.words| && Fits(xybase, |lex.words[w]|, dir)
    requires 0 <= k <= |lex.words[w]|
    decreases k
  {
    k == 0 || (CodesOk(lex, g, xybase, w, dir, k - 1) && CodeOk(lex, g, xybase, w, dir, k - 1))
  }

  /** Checking in order accepts exactly when every one of the first k codes may go to its cell. */
  lemma {:induction false} CodesOkAll(lex: Lexicon, g: seq<int>, xybase: int, w: int, dir: Dir, k: int)
    requires LexShape(lex) && GridOk(g) && 0 <= w < |lex.words| && Fits(xybase, |lex.words[w]|, dir)
    requires 0 <= k <= |lex.words[w]|
    ensures CodesOk(lex, g, xybase, w, dir, k) <==> forall j :: 0 <= j < k ==> CodeOk(lex, g, xybase, w, dir, j)
    decreases k
  {
    if k > 0 {
      CodesOkAll(lex, g, xybase, w, dir, k - 1);
    }
  }

  /** Every code of word w may go to its cell. */
  predicate CellsOk(lex: Lexicon, g: seq<int>, xybase: int, w: int, dir: Dir)
    requires LexShape(lex) && GridOk(g) && 0 <= w < |lex.words| && Fits(xybase, |lex.words[w]|, dir)
  {
    forall k :: 0 <= k < |lex.words[w]| ==> CodeOk(lex, g, xybase, w, dir, k)
  }

  /** test_hword (dir == H) and test_vword (dir == V). */
  predicate TestWord(lex: Lexicon, sym: bool, g: seq<int>, xybase: int, w: int, dir: Dir)
    requires LexShape(lex) && GridOk(g) && 0 <= w < |lex.words|
  {
    var word := lex.words[w];
    Fits(xybase, |word|, dir) && SymOk(sym, g, xybase, |word|, dir) && CellsOk(lex, g, xybase, w, dir)
  }
}
