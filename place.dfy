/**
 * Placement of one word (place_hword / place_vword), split as the source
 * does it into the check phase, which records and confirms the crossings
 * the word forms, and the write phase, which copies the node and writes
 * the word into the copy.
 */
module Place {
  import opened Consts
  import opened Words
  import opened Links
  import opened Grid

  // ---------------------------------------------------------------------
  // Check phase

  /** Letter k of word w, put at a free cell, touches a letter across dir. */
  predicate HasCrossing(lex: Lexicon, g: seq<int>, xybase: int, w: int, dir: Dir, k: int)
    requires LexShape(lex) && GridOk(g) && 0 <= w < |lex.words|
    requires Fits(xybase, |lex.words[w]|, dir) && 0 <= k < |lex.words[w]|
  {
    var xy, c := CellOf(xybase, k, dir), lex.words[w][k];
    g[xy] != c && g[xy] == FREE && c != STAR && Crosses(g, xy, dir)
  }

  /** The worklist entry recorded for that crossing: its window start and the head of its link list. */
  function CrossingAt(lex: Lexicon, g: seq<int>, xybase: int, w: int, dir: Dir, k: int): (x: Adj)
    requires LexShape(lex) && GridOk(g) && 0 <= w < |lex.words|
    requires Fits(xybase, |lex.words[w]|, dir) && 0 <= k < |lex.words[w]|
    requires HasCrossing(lex, g, xybase, w, dir, k)
    ensures x.dir == Across(dir) && 0 <= x.l < |lex.linkdat|
  {
    var xy, c := CellOf(xybase, k, dir), lex.words[w][k];
    WordCode(lex, w, k);
    Adj(Across(dir), CrossPos(g, xy, dir), CrossHead(lex, g, xy, c, dir))
  }

  /** The crossings formed by the first k codes of the word, in the order the scan records them. */
  function Crossings(lex: Lexicon, g: seq<int>, xybase: int, w: int, dir: Dir, k: int): (es: seq<Adj>)
    requires LexShape(lex) && GridOk(g) && 0 <= w < |lex.words|
    requires Fits(xybase, |lex.words[w]|, dir) && 0 <= k <= |lex.words[w]|
    ensures |es| <= k
    decreases k
  {
    if k == 0 then []
    else
      Crossings(lex, g, xybase, w, dir, k - 1) +
      (if HasCrossing(lex, g, xybase, w, dir, k - 1) then [CrossingAt(lex, g, xybase, w, dir, k - 1)] else [])
  }

  /** Every recorded crossing is of the orientation across the word and points into the link table. */
  lemma {:induction false} CrossingsRange(lex: Lexicon, g: seq<int>, xybase: int, w: int, dir: Dir, k: int)
    requires LexShape(lex) && GridOk(g) && 0 <= w < |lex.words|
    requires Fits(xybase, |lex.words[w]|, dir) && 0 <= k <= |lex.words[w]|
    ensures forall j :: 0 <= j < |Crossings(lex, g, xybase, w, dir, k)| ==>
      Crossings(lex, g, xybase, w, dir, k)[j].dir == Across(dir) && 0 <= Crossings(lex, g, xybase, w, dir, k)[j].l < |lex.linkdat|
    decreases k
  {
    if k > 0 {
      CrossingsRange(lex, g, xybase, w, dir, k - 1);
    }
  }

  /** The crossings of a prefix are no more than those of a longer prefix. */
  lemma {:induction false} CrossingsPrefix(lex: Lexicon, g: seq<int>, xybase: int, w: int, dir: Dir, k: int, m: int)
    requires LexShape(lex) && GridOk(g) && 0 <= w < |lex.words|
    requires Fits(xybase, |lex.words[w]|, dir) && 0 <= k <= m <= |lex.words[w]|
    ensures |Crossings(lex, g, xybase, w, dir, k)| <= |Crossings(lex, g, xybase, w, dir, m)|
    decreases m - k
  {
    if k < m {
      CrossingsPrefix(lex, g, xybase, w, dir, k, m - 1);
      assert |Crossings(lex, g, xybase, w, dir, m - 1)| <= |Crossings(lex, g, xybase, w, dir, m)|;
    }
  }

  /** Entry e's word, anchored where its window meets cell xy, passes the test in orientation dir. */
  predicate Passes(lex: Lexicon, sym: bool, g: seq<int>, xy: int, e: int, dir: Dir)
    requires LexShape(lex) && GridOk(g) && 1 <= e < |lex.linkdat|
  {
    TestWord(lex, sym, g, CellOf(xy, lex.linkdat[e].ofs, dir), lex.linkdat[e].w, dir)
  }

  /**
   * The confirmation of one crossing: the first entry on the chain from l
   * whose word passes the test in orientation dir, or 0 when none does.
   */
  function FirstFit(lex: Lexicon, sym: bool, g: seq<int>, xy: int, l: int, dir: Dir): (r: int)
    requires LexShape(lex) && GridOk(g) && 0 <= l < |lex.linkdat|
    ensures 0 <= r <= l
    decreases l
  {
    if l == 0 then 0
    else if Passes(lex, sym, g, xy, l, dir) then l
    else FirstFit(lex, sym, g, xy, lex.linkdat[l].next, dir)
  }

  /**
   * FirstFit finds the first passing entry of the chain: a nonzero result
   * is on the chain and passes, every entry before it on the chain fails,
   * and 0 means that every entry of the chain fails.
   */
  lemma {:induction false} FirstFitSpec(lex: Lexicon, sym: bool, g: seq<int>, xy: int, l: int, dir: Dir)
    requires LexShape(lex) && GridOk(g) && 0 <= l < |lex.linkdat|
    ensures var r := FirstFit(lex, sym, g, xy, l, dir);
      (r != 0 ==> Reachable(lex.linkdat, l, r) && Passes(lex, sym, g, xy, r, dir)) &&
      (forall e :: r < e < |lex.linkdat| && Reachable(lex.linkdat, l, e) ==> !Passes(lex, sym, g, xy, e, dir)) &&
      (r == 0 <==> forall e :: 1 <= e < |lex.linkdat| && Reachable(lex.linkdat, l, e) ==> !Passes(lex, sym, g, xy, e, dir))
    decreases l
  {
    if l != 0 {
      ReachableBelow(lex.linkdat, l);
      if !Passes(lex, sym, g, xy, l, dir) {
        FirstFitSpec(lex, sym, g, xy, lex.linkdat[l].next, dir);
      }
    }
  }

  /** The walk along one link list that confirms a crossing. */
  method FindFit(lex: Lexicon, sym: bool, g: seq<int>, xy: int, head: int, dir: Dir) returns (l: int)
    requires LexShape(lex) && GridOk(g) && 0 <= head < |lex.linkdat|
    ensures l == FirstFit(lex, sym, g, xy, head, dir)
  {
    l := head;
    while l != 0 && !TestWord(lex, sym, g, CellOf(xy, lex.linkdat[l].ofs, dir), lex.linkdat[l].w, dir)
      invariant 0 <= l < |lex.linkdat|
      invariant FirstFit(lex, sym, g, xy, l, dir) == FirstFit(lex, sym, g, xy, head, dir)
      decreases l
    {
      l := lex.linkdat[l].next;
    }
  }

  /** The confirmation of a recorded entry. */
  function Confirm(lex: Lexicon, sym: bool, g: seq<int>, e: Adj): (r: Adj)
    requires LexShape(lex) && GridOk(g) && 0 <= e.l < |lex.linkdat|
  {
    e.(l := FirstFit(lex, sym, g, e.xy, e.l, e.dir))
  }

  /** The crossings of word w at xybase in grid state d. */
  function CrossingsOf(lex: Lexicon, d: Node, xybase: int, w: int, dir: Dir): (es: seq<Adj>)
    requires LexShape(lex) && NodeOk(lex, d) && 0 <= w < |lex.words| && Fits(xybase, |lex.words[w]|, dir)
    ensures forall j :: 0 <= j < |es| ==> es[j].dir == Across(dir) && 0 <= es[j].l < |lex.linkdat|
  {
    CrossingsRange(lex, d.grid, xybase, w, dir, |lex.words[w]|);
    Crossings(lex, d.grid, xybase, w, dir, |lex.words[w]|)
  }

  /** Every recorded entry, each replaced by its confirmation. */
  function Confirmed(lex: Lexicon, sym: bool, g: seq<int>, es: seq<Adj>): (rs: seq<Adj>)
    requires LexShape(lex) && GridOk(g) && forall j :: 0 <= j < |es| ==> 0 <= es[j].l < |lex.linkdat|
    ensures |rs| == |es| && forall j :: 0 <= j < |es| ==> rs[j] == Confirm(lex, sym, g, es[j])
  {
    seq(|es|, j requires 0 <= j < |es| => Confirm(lex, sym, g, es[j]))
  }

  /**
   * place_hword / place_vword accept word w at xybase: it is not placed
   * yet, it passes the legality test, its crossings fit in the worklist
   * and every crossing is confirmed by some word of its link list.
   */
  predicate PlaceOk(lex: Lexicon, sym: bool, d: Node, xybase: int, w: int, dir: Dir)
    requires LexShape(lex) && NodeOk(lex, d) && 0 <= w < |lex.words|
  {
    w !in d.words && TestWord(lex, sym, d.grid, xybase, w, dir) &&
    var es := CrossingsOf(lex, d, xybase, w, dir);
    |d.adj| + |es| < ADJMAX && AllConfirmed(lex, sym, d.grid, es)
  }

  /** Every recorded entry is confirmed by some entry of its link list. */
  predicate AllConfirmed(lex: Lexicon, sym: bool, g: seq<int>, es: seq<Adj>)
    requires LexShape(lex) && GridOk(g) && forall j :: 0 <= j < |es| ==> 0 <= es[j].l < |lex.linkdat|
  {
    forall j :: 0 <= j < |es| ==> FirstFit(lex, sym, g, es[j].xy, es[j].l, es[j].dir) != 0
  }

  /** The worklist entries an accepted check adds: the confirmed crossings, in scan order. */
  function NewEntries(lex: Lexicon, sym: bool, d: Node, xybase: int, w: int, dir: Dir): (cf: seq<Adj>)
    requires LexShape(lex) && NodeOk(lex, d) && 0 <= w < |lex.words| && PlaceOk(lex, sym, d, xybase, w, dir)
    ensures |d.adj| + |cf| < ADJMAX
    ensures forall j :: 0 <= j < |cf| ==> cf[j].dir == Across(dir) && 0 < cf[j].l < |lex.linkdat|
  {
    Confirmed(lex, sym, d.grid, CrossingsOf(lex, d, xybase, w, dir))
  }

  /**
   * The character-environment scan of place_hword / place_vword: each code
   * must match or go to a free cell, and each crossing a letter forms is
   * recorded in the next worklist slot, failing when its link list is empty
   * or the worklist is full.
   */
  method ScanCrossings(lex: Lexicon, g: seq<int>, numadj: int, xybase: int, w: int, dir: Dir)
    returns (ok: bool, es: seq<Adj>)
    requires LexShape(lex) && GridOk(g) && 0 <= w < |lex.words| && Fits(xybase, |lex.words[w]|, dir)
    requires 0 <= numadj < ADJMAX
    ensures ok <==> CellsOk(lex, g, xybase, w, dir) && numadj + |Crossings(lex, g, xybase, w, dir, |lex.words[w]|)| < ADJMAX
    ensures ok ==> es == Crossings(lex, g, xybase, w, dir, |lex.words[w]|)
  {
    var word := lex.words[w];
    var newnumadj := numadj;
    es := [];
    var k := 0;
    while k < |word|
      invariant 0 <= k <= |word|
      invariant CodesOk(lex, g, xybase, w, dir, k)
      invariant es == Crossings(lex, g, xybase, w, dir, k) && newnumadj == numadj + |es| < ADJMAX
    {
      var cellOk, e := ScanCell(lex, g, xybase, w, dir, k);
      if !cellOk {
        // placement conflict, or a crossing no word holds
        return false, es;
      }
      ScanStep(lex, g, xybase, w, dir, k);
      if e.Some? {
        if newnumadj == ADJMAX - 1 {
          // the worklist is full
          CrossingsPrefix(lex, g, xybase, w, dir, k + 1, |word|);
          return false, es;
        }
        es := es + [e.value];
        newnumadj := newnumadj + 1;
      }
      k := k + 1;
    }
    CodesOkAll(lex, g, xybase, w, dir, |word|);
    ok := true;
  }

  /** A code that may go to its cell extends the checked prefix and adds its crossing, if any, to the list. */
  lemma ScanStep(lex: Lexicon, g: seq<int>, xybase: int, w: int, dir: Dir, k: int)
    requires LexShape(lex) && GridOk(g) && 0 <= w < |lex.words| && Fits(xybase, |lex.words[w]|, dir)
    requires 0 <= k < |lex.words[w]| && CodesOk(lex, g, xybase, w, dir, k) && CodeOk(lex, g, xybase, w, dir, k)
    ensures CodesOk(lex, g, xybase, w, dir, k + 1)
    ensures HasCrossing(lex, g, xybase, w, dir, k) ==>
      Crossings(lex, g, xybase, w, dir, k + 1) == Crossings(lex, g, xybase, w, dir, k) + [CrossingAt(lex, g, xybase, w, dir, k)]
    ensures !HasCrossing(lex, g, xybase, w, dir, k) ==>
      Crossings(lex, g, xybase, w, dir, k + 1) == Crossings(lex, g, xybase, w, dir, k)
  {
  }

  /**
   * One iteration of the scan: whether code k may go to its cell and, if it
   * forms a crossing there, the entry to record.
   */
  method ScanCell(lex: Lexicon, g: seq<int>, xybase: int, w: int, dir: Dir, k: int)
    returns (cellOk: bool, e: Option<Adj>)
    requires LexShape(lex) && GridOk(g) && 0 <= w < |lex.words| && Fits(xybase, |lex.words[w]|, dir)
    requires 0 <= k < |lex.words[w]|
    ensures cellOk == CodeOk(lex, g, xybase, w, dir, k)
    ensures cellOk ==> (e.Some? <==> HasCrossing(lex, g, xybase, w, dir, k))
    ensures cellOk && e.Some? ==> e.value == CrossingAt(lex, g, xybase, w, dir, k)
  {
    var xy, c := CellOf(xybase, k, dir), lex.words[w][k];
    WordCode(lex, w, k);
    if g[xy] == c {
      // the code is already there
      return true, None;
    } else if g[xy] != FREE {
      // placement conflict
      return false, None;
    } else if c == STAR || !Crosses(g, xy, dir) {
      // a delimiter or a letter with no adjacent letters forms no crossing
      return true, None;
    }
    var pos, head := CrossPos(g, xy, dir), CrossHead(lex, g, xy, c, dir);
    if head == 0 {
      // no word of the crossing orientation holds this window
      return false, None;
    }
    return true, Some(Adj(Across(dir), pos, head));
  }

  /**
   * The confirmation loop of place_hword / place_vword: for each recorded
   * crossing, walk its link list until a word of the crossing orientation
   * passes the legality test at its implied anchor, and keep that entry.
   */
  method ConfirmCrossings(lex: Lexicon, sym: bool, g: seq<int>, es: seq<Adj>)
    returns (ok: bool, cf: seq<Adj>)
    requires LexShape(lex) && GridOk(g)
    requires forall j :: 0 <= j < |es| ==> 0 <= es[j].l < |lex.linkdat|
    ensures ok <==> AllConfirmed(lex, sym, g, es)
    ensures ok ==> cf == Confirmed(lex, sym, g, es)
  {
    cf := [];
    var i := 0;
    while i < |es|
      invariant 0 <= i <= |es|
      invariant cf == Confirmed(lex, sym, g, es[..i])
      invariant forall j :: 0 <= j < i ==> FirstFit(lex, sym, g, es[j].xy, es[j].l, es[j].dir) != 0
    {
      var e := es[i];
      var l := FindFit(lex, sym, g, e.xy, e.l, e.dir);
      if l == 0 {
        return false, cf;
      }
      assert es[..i + 1] == es[..i] + [e];
      cf := cf + [e.(l := l)];
      i := i + 1;
    }
    assert es[..i] == es;
    ok := true;
  }

  /**
   * The check phase of place_hword / place_vword: the placed-word, bounds
   * and symmetry tests, the scan that records each crossing, and the
   * confirmation of each recorded crossing. On success it returns the new
   * worklist entries (in the source they sit in the scratch slots past
   * numadj until the node is copied).
   */
  method CheckPlacement(lex: Lexicon, sym: bool, d: Node, xybase: int, w: int, dir: Dir)
    returns (ok: bool, cf: seq<Adj>)
    requires LexShape(lex) && NodeOk(lex, d) && 0 <= w < |lex.words|
    ensures ok == PlaceOk(lex, sym, d, xybase, w, dir)
    ensures ok ==> cf == NewEntries(lex, sym, d, xybase, w, dir)
  {
    cf := [];
    var word := lex.words[w];
    if w in d.words {
      return false, cf;
    }
    if xybase < 0 || (if dir == H then xybase + |word| >= CELLS + 1 else xybase + |word| * GRIDMAX >= CELLS + GRIDMAX) {
      return false, cf;
    }
    assert Fits(xybase, |word|, dir);
    if sym {
      if IsChar(d.grid[Mirror(xybase)]) || IsChar(d.grid[Mirror(LastCell(xybase, |word|, dir))]) {
        return false, cf;
      }
    }
    var scanned, es := ScanCrossings(lex, d.grid, |d.adj|, xybase, w, dir);
    if !scanned {
      return false, cf;
    }
    CrossingsRange(lex, d.grid, xybase, w, dir, |word|);
    ok, cf := ConfirmCrossings(lex, sym, d.grid, es);
  }
}
