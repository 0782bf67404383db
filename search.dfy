/**
 * The search engine: the score-ordered frontier (the scores[] buckets), the
 * free-list pool of nodes, the expansion of one grid (scan_grid), the round
 * loop (kick_ass) and the start of the search in main.
 */
module Search {
  import opened Consts
  import opened Words
  import opened Links
  import opened Grid
  import opened Place
  import opened Write
  import opened Frontier
  import opened Trace
  import opened Hotspot
  import opened Sweep
  import opened SweepLaws
  import opened Levels

  /** How the round loop ended: no grid was filed in the last round, or the timer expired. */
  datatype Outcome = Converged | TimedOut

  class Engine {
    const lex: Lexicon
    const symmetrical: bool           // opt_symmetrical
    const nodemax: int                // opt_nodemax
    const xy2level: seq<int>          // the level of every cell
    const level2xy: seq<int>          // the first cell of every level's walk
    var scores: array<seq<Node>>      // the frontier, one sorted list per bucket
    var freenode: seq<Node>           // the pool of recycled nodes, top first
    var nummalloc: int                // nodes obtained from the allocator
    var numnode: int                  // grids without pending crossings filed this round
    var realnumnode: int              // grids filed this round
    var solution: Node                // the grid with most words seen so far
    ghost var floor: int              // every grid in the frontier holds at least this many words
    ghost var tried: seq<Attempt>     // every placement attempted, in order

    /** What the engine is given and never changes: a well-formed link table and the hotspot tables. */
    predicate Setup()
    {
      LexShape(lex) && Tables(xy2level, level2xy)
    }

    /**
     * The state every operation keeps: each bucket of the frontier is
     * sorted and holds well-formed grids of its own score band with at
     * least floor words, and the best grid so far is empty or complete.
     */
    ghost predicate Valid()
      reads this, scores
    {
      scores.Length == SCOREMAX && FrontierOk(lex, scores[..], floor) &&
      (solution == ZeroNode() || (NodeOk(lex, solution) && |solution.adj| == 0))
    }

    /** Nodes held by the pool and the frontier. */
    ghost function Stored(): int
      reads this, scores
    {
      |freenode| + Total(scores[..])
    }

    /** Nodes taken from the allocator and held by neither the pool nor the frontier. */
    ghost function InHand(): int
      reads this, scores
    {
      nummalloc - Stored()
    }

    /** Grids in the frontier that were not filed in this round. */
    ghost function Carried(): int
      reads this, scores
    {
      Total(scores[..]) - realnumnode
    }

    /**
     * What every step of the expansion of one grid keeps: the engine stays
     * well formed, no node is lost, the best grid stays, and the record of
     * attempts only grows.
     */
    twostate predicate Kept()
      reads this, scores
    {
      Valid() && scores == old(scores) && InHand() == old(InHand()) && Carried() == old(Carried()) &&
      solution == old(solution) && floor == old(floor) && old(tried) <= tried
    }

    /** Every attempt of ts from index n0 on belongs to the sweep of grid d0. */
    ghost predicate Swept(ts: seq<Attempt>, d0: Node, n0: int)
    {
      LexShape(lex) && 0 <= n0 <= |ts| &&
      forall j {:trigger SweptAt(ts, d0, j)} :: n0 <= j < |ts| ==> SweptAt(ts, d0, j)
    }

    /** Attempt j of ts belongs to the sweep of grid d0. */
    ghost predicate SweptAt(ts: seq<Attempt>, d0: Node, j: int)
      requires 0 <= j < |ts|
    {
      LexShape(lex) && SweepTry(lex, symmetrical, d0, ts[j])
    }

    /** The record grown by attempts of the sweep of d0: its attempts from |ts| on are swept. */
    lemma SweptOf(ts: seq<Attempt>, extra: seq<Attempt>, d0: Node)
      requires SweepTries(lex, symmetrical, d0, extra)
      ensures Swept(ts + extra, d0, |ts|)
    {
      forall j | |ts| <= j < |ts + extra|
        ensures SweptAt(ts + extra, d0, j)
      {
        assert SweepTryAt(lex, symmetrical, d0, extra, j - |ts|);
        assert (ts + extra)[j] == extra[j - |ts|];
      }
    }

    constructor(lex: Lexicon, symmetrical: bool, nodemax: int)
      requires LexShape(lex)
      ensures Setup() && Valid() && fresh(scores)
      ensures this.lex == lex && this.symmetrical == symmetrical && this.nodemax == nodemax
      ensures forall i :: 0 <= i < SCOREMAX ==> scores[i] == []
      ensures freenode == [] && nummalloc == 0 && numnode == 0 && realnumnode == 0
      ensures solution == ZeroNode() && floor == 0 && tried == []
    {
      this.lex := lex;
      this.symmetrical := symmetrical;
      this.nodemax := nodemax;
      var x2l, l2x := Hotspots();
      xy2level, level2xy := x2l, l2x;
      scores := new seq<Node>[SCOREMAX](_ => []);
      freenode := [];
      nummalloc := 0;
      numnode := 0;
      realnumnode := 0;
      solution := ZeroNode();
      floor := 0;
      tried := [];
    }

    /** mallocnode: take the top of the free list, or a new node when it is empty. */
    method MallocNode() returns (reused: bool)
      requires Setup() && Valid()
      modifies this
      ensures Valid() && scores == old(scores)
      ensures reused == (old(freenode) != [])
      ensures freenode == if reused then old(freenode)[1..] else old(freenode)
      ensures nummalloc == old(nummalloc) + (if reused then 0 else 1)
      ensures InHand() == old(InHand()) + 1
      ensures numnode == old(numnode) && realnumnode == old(realnumnode)
      ensures solution == old(solution) && floor == old(floor) && tried == old(tried)
    {
      if freenode == [] {
        nummalloc := nummalloc + 1;
        reused := false;
      } else {
        freenode := freenode[1..];
        reused := true;
      }
    }

    /**
     * add_node: file grid d in the bucket of its score, after every grid that
     * goes before it, unless the bucket already holds an equal grid, in which
     * case d goes back to the free list.
     */
    method AddNode(d: Node) returns (added: bool)
      requires Setup() && Valid() && NodeOk(lex, d) && d.numchar > 0 && d.numword >= floor
      modifies this, scores
      ensures Valid() && scores == old(scores)
      ensures added == !HasTwin(old(scores[Bucket(d)]), d)
      ensures added ==> multiset(scores[Bucket(d)]) == multiset(old(scores[Bucket(d)])) + multiset{d}
      ensures added ==> freenode == old(freenode)
      ensures !added ==> scores[Bucket(d)] == old(scores[Bucket(d)]) && freenode == [d] + old(freenode)
      ensures forall i :: 0 <= i < SCOREMAX && i != Bucket(d) ==> scores[i] == old(scores[i])
      ensures Total(scores[..]) == old(Total(scores[..])) + (if added then 1 else 0)
      ensures realnumnode == old(realnumnode) + (if added then 1 else 0)
      ensures numnode == old(numnode) + (if added && |d.adj| == 0 then 1 else 0)
      ensures InHand() == old(InHand()) - 1
      ensures nummalloc == old(nummalloc) && solution == old(solution) && floor == old(floor) && tried == old(tried)
    {
      var b := Bucket(d);
      var s := scores[b];
      assert BandOk(lex, scores[..], floor, b);
      var p, twin := FindSlot(lex, d, s, b);
      added := !twin;
      if twin {
        freenode := [d] + freenode;
      } else {
        InsertMultiset(s, p, d);
        TotalUpdate(scores[..], b, s[..p] + [d] + s[p..]);
        FrontierUpdate(lex, scores[..], floor, b, s[..p] + [d] + s[p..]);
        scores[b] := s[..p] + [d] + s[p..];
        if |d.adj| == 0 {
          numnode := numnode + 1;
        }
        realnumnode := realnumnode + 1;
      }
    }

    /**
     * place_hword (dir == H) and place_vword (dir == V) as the search calls
     * them: test the word, take a node from the pool, build the new grid and
     * file it. `why` records which step of the search made the attempt.
     */
    method TryPlace(d: Node, xybase: int, w: int, dir: Dir, ghost why: Reason) returns (placed: bool)
      requires Setup() && Valid() && NodeOk(lex, d) && 0 <= w < |lex.words| && d.numword + 1 >= floor
      modifies this, scores
      ensures Valid() && scores == old(scores)
      ensures placed == PlaceOk(lex, symmetrical, d, xybase, w, dir)
      ensures placed ==>
        HasTwin(scores[Bucket(Placed(lex, symmetrical, d, xybase, w, dir))], Placed(lex, symmetrical, d, xybase, w, dir))
      ensures !placed ==> scores[..] == old(scores[..]) && freenode == old(freenode) && nummalloc == old(nummalloc)
      ensures !placed ==> numnode == old(numnode) && realnumnode == old(realnumnode)
      ensures numnode >= old(numnode) && realnumnode >= old(realnumnode)
      ensures InHand() == old(InHand()) && Carried() == old(Carried())
      ensures solution == old(solution) && floor == old(floor)
      ensures tried == old(tried) + [Attempt(why, d, xybase, w, dir)]
    {
      tried := tried + [Attempt(why, d, xybase, w, dir)];
      var r;
      placed, r := PlaceWord(lex, symmetrical, d, xybase, w, dir);
      if placed {
        PlacedGrows(lex, symmetrical, d, xybase, w, dir);
        Admit(r);
      }
    }

    /** mallocnode then add_node: afterwards the grid state, or a twin of it, is in its bucket. */
    method Admit(r: Node)
      requires Setup() && Valid() && NodeOk(lex, r) && r.numword > 0 && r.numword >= floor
      modifies this, scores
      ensures Valid() && scores == old(scores)
      ensures HasTwin(scores[Bucket(r)], r)
      ensures numnode >= old(numnode) && realnumnode >= old(realnumnode)
      ensures InHand() == old(InHand()) && Carried() == old(Carried())
      ensures solution == old(solution) && floor == old(floor) && tried == old(tried)
    {
      var _ := MallocNode();
      var added := AddNode(r);
      if added {
        assert r in multiset(scores[Bucket(r)]);
        assert scores[Bucket(r)][IndexOf(scores[Bucket(r)], r)] == r;
      }
    }

    /** place_hword or place_vword where the caller does not look at the result: only the record of attempts grows. */
    method TryWord(d: Node, xybase: int, w: int, dir: Dir, ghost why: Reason)
      requires Setup() && Valid() && NodeOk(lex, d) && 0 <= w < |lex.words| && d.numword + 1 >= floor
      modifies this, scores
      ensures Kept() && tried == old(tried) + [Attempt(why, d, xybase, w, dir)]
    {
      var _ := TryPlace(d, xybase, w, dir, why);
    }

    /** The adjacency step: walk the link chain of a pending crossing, trying every entry at its offset from xy. */
    method WalkChain(d: Node, xy: int, dir: Dir, l0: int)
      requires Setup() && Valid() && NodeOk(lex, d) && 0 <= l0 < |lex.linkdat| && d.numword + 1 >= floor
      modifies this, scores
      ensures Kept() && tried == old(tried) + ChainTries(lex, d, xy, dir, l0)
    {
      var l := l0;
      while l != 0
        invariant 0 <= l < |lex.linkdat|
        invariant Kept()
        invariant tried + ChainTries(lex, d, xy, dir, l) == old(tried) + ChainTries(lex, d, xy, dir, l0)
        decreases l
      {
        ChainOne(d, xy, dir, l);
        l := lex.linkdat[l].next;
      }
    }

    /** One pass of the adjacency step: the word of entry l, anchored at its offset from xy. */
    method ChainOne(d: Node, xy: int, dir: Dir, l: int)
      requires Setup() && Valid() && NodeOk(lex, d) && 0 < l < |lex.linkdat| && d.numword + 1 >= floor
      modifies this, scores
      ensures Kept() && tried + ChainTries(lex, d, xy, dir, lex.linkdat[l].next) == old(tried) + ChainTries(lex, d, xy, dir, l)
    {
      var ld := lex.linkdat[l];
      ChainStep(lex, d, xy, dir, l, tried);
      TryWord(d, xy + ld.ofs * Stride(dir), ld.w, dir, Pair(xy, l));
    }

    /** The symmetry step: try every unplaced word of the mirror length at the mirror anchor. */
    method MirrorWord(d: Node, dir: Dir)
      requires Setup() && Valid() && NodeOk(lex, d) && d.numword + 1 >= floor
      modifies this, scores
      ensures Kept() && tried == old(tried) + SymTries(lex, d, dir, |lex.words|)
    {
      var w := |lex.words| - 1;
      while w >= 0
        invariant -1 <= w < |lex.words|
        invariant Kept()
        invariant tried + SymTries(lex, d, dir, w + 1) == old(tried) + SymTries(lex, d, dir, |lex.words|)
      {
        MirrorOne(d, dir, w);
        w := w - 1;
      }
    }

    /** One pass of the symmetry step: word w is tried at the mirror anchor when it is unplaced and of the mirror length. */
    method MirrorOne(d: Node, dir: Dir, w: int)
      requires Setup() && Valid() && NodeOk(lex, d) && d.numword + 1 >= floor && 0 <= w < |lex.words|
      modifies this, scores
      ensures Kept() && tried + SymTries(lex, d, dir, w) == old(tried) + SymTries(lex, d, dir, w + 1)
    {
      SymStep(lex, d, dir, w + 1, tried);
      if w !in d.words && |lex.words[w]| == d.symlen {
        TryWord(d, d.symxy, w, dir, Symmetry);
      }
    }

    // -------------------------------------------------------------------
    // The sweep

    /** One attempt of the sweep, counted in cnt when it places a grid. */
    method Try(d: Node, xybase: int, w: int, dir: Dir, ghost why: Reason, cnt: int) returns (cnt': int)
      requires Setup() && Valid() && NodeOk(lex, d) && 0 <= w < |lex.words| && d.numword + 1 >= floor
      modifies this, scores
      ensures Kept() && tried == old(tried) + [Attempt(why, d, xybase, w, dir)]
      ensures cnt' == cnt + Successes(lex, symmetrical, [Attempt(why, d, xybase, w, dir)])
    {
      SuccessesOne(lex, symmetrical, Attempt(why, d, xybase, w, dir));
      var placed := TryPlace(d, xybase, w, dir, why);
      cnt' := if placed then cnt + 1 else cnt;
    }

    /** The attempts of one pass for entry l of the links1 list of the letter at xy; cnt counts the grids placed. */
    method TryLink(pass: Pass, d: Node, xy: int, dir: Dir, l: int, cnt: int) returns (cnt': int)
      requires Setup() && Valid() && NodeOk(lex, d) && d.numword + 1 >= floor && 0 < l < |lex.linkdat|
      modifies this, scores
      ensures Kept() && tried == old(tried) + LinkTries(lex, symmetrical, pass, d, xy, dir, l)
      ensures cnt' == cnt + Successes(lex, symmetrical, LinkTries(lex, symmetrical, pass, d, xy, dir, l))
    {
      var ld := lex.linkdat[l];
      var tstxy := xy + ld.ofs * Stride(dir);
      cnt' := cnt;
      if pass == TightPass {
        if 0 <= tstxy < CELLS && xy2level[tstxy] == d.firstlevel {
          cnt' := Try(d, tstxy, ld.w, dir, Tight(xy, l), cnt);
        }
      } else if pass == AdjacentPass {
        cnt' := TryAdjacent(d, xy, dir, l, cnt);
      } else if 0 <= tstxy < CELLS && d.grid[tstxy] != STAR {
        cnt' := Try(d, tstxy, ld.w, dir, Fragment(xy, l), cnt);
      }
    }

    /**
     * The adjacent pass for entry l of the links1 list of the letter at xy:
     * the word is tried when its anchor holds a star and, under symmetry,
     * once more when the mirror of its last cell holds a star.
     */
    method TryAdjacent(d: Node, xy: int, dir: Dir, l: int, cnt: int) returns (cnt': int)
      requires Setup() && Valid() && NodeOk(lex, d) && d.numword + 1 >= floor && 0 < l < |lex.linkdat|
      modifies this, scores
      ensures Kept() && tried == old(tried) + LinkTries(lex, symmetrical, AdjacentPass, d, xy, dir, l)
      ensures cnt' == cnt + Successes(lex, symmetrical, LinkTries(lex, symmetrical, AdjacentPass, d, xy, dir, l))
    {
      var ld := lex.linkdat[l];
      var tstxy := xy + ld.ofs * Stride(dir);
      var m := Mirror(LastCell(tstxy, |lex.words[ld.w]|, dir));
      ghost var t := Attempt(Adjacent(xy, l), d, tstxy, ld.w, dir);
      ghost var first := if 0 <= tstxy < CELLS && d.grid[tstxy] == STAR then [t] else [];
      ghost var second := if symmetrical && 0 <= m < CELLS && d.grid[m] == STAR then [t] else [];
      assert LinkTries(lex, symmetrical, AdjacentPass, d, xy, dir, l) == first + second;
      SuccessesAppend(lex, symmetrical, first, second);
      ghost var t0 := tried;
      cnt' := TryIf(0 <= tstxy < CELLS && d.grid[tstxy] == STAR, d, tstxy, ld.w, dir, Adjacent(xy, l), cnt);
      cnt' := TryIf(symmetrical && 0 <= m < CELLS && d.grid[m] == STAR, d, tstxy, ld.w, dir, Adjacent(xy, l), cnt');
      assert tried == t0 + first + second;
    }

    /** One attempt of the sweep when `cond` holds, counted in cnt when it places a grid; nothing otherwise. */
    method TryIf(cond: bool, d: Node, xybase: int, w: int, dir: Dir, ghost why: Reason, cnt: int) returns (cnt': int)
      requires Setup() && Valid() && NodeOk(lex, d) && 0 <= w < |lex.words| && d.numword + 1 >= floor
      modifies this, scores
      ensures var ts := if cond then [Attempt(why, d, xybase, w, dir)] else [];
        Kept() && tried == old(tried) + ts && cnt' == cnt + Successes(lex, symmetrical, ts)
    {
      if cond {
        cnt' := Try(d, xybase, w, dir, why, cnt);
      } else {
        cnt' := cnt;
        assert tried + [] == tried;
      }
    }

    /**
     * One pass through the letter at xy in orientation dir: walk the
     * links1 list of that letter, trying each entry through the filter of
     * the pass; the fragment pass stops at the first grid placed, except
     * under symmetry. cnt counts the grids placed.
     */
    method WalkCell(pass: Pass, d: Node, xy: int, dir: Dir) returns (cnt: int)
      requires Setup() && Valid() && NodeOk(lex, d) && d.numword + 1 >= floor && 0 <= xy < CELLS
      modifies this, scores
      ensures Kept() && tried == old(tried) + CellWalk(lex, symmetrical, pass, d, xy, dir)
      ensures cnt == Successes(lex, symmetrical, CellWalk(lex, symmetrical, pass, d, xy, dir))
    {
      ghost var goal := tried + CellWalk(lex, symmetrical, pass, d, xy, dir);
      ghost var total := Successes(lex, symmetrical, CellWalk(lex, symmetrical, pass, d, xy, dir));
      var l := lex.links1[d.grid[xy]];
      cnt := 0;
      while l != 0 && !(pass == FragmentPass && !symmetrical && cnt != 0)
        invariant 0 <= l < |lex.linkdat| && cnt >= 0
        invariant Kept()
        invariant goal == tried + CellTries(lex, symmetrical, pass, d, xy, dir, l, cnt != 0)
        invariant total == cnt + Successes(lex, symmetrical, CellTries(lex, symmetrical, pass, d, xy, dir, l, cnt != 0))
        decreases l
      {
        CellStep(lex, symmetrical, pass, d, xy, dir, l, cnt != 0, tried);
        cnt := TryLink(pass, d, xy, dir, l, cnt);
        l := lex.linkdat[l].next;
      }
      assert tried + [] == tried;
    }

    /** The tight or adjacent pass at cell xy: across when the cell wants a word across, then down when it wants one down. */
    method DiagCell(pass: Pass, d: Node, xy: int) returns (cnt: int)
      requires Setup() && Valid() && NodeOk(lex, d) && d.numword + 1 >= floor && 0 <= xy < CELLS
      modifies this, scores
      ensures Kept() && tried == old(tried) + CellPair(lex, symmetrical, pass, d, xy)
      ensures cnt == Successes(lex, symmetrical, CellPair(lex, symmetrical, pass, d, xy))
    {
      ghost var h := if d.attr[xy] & Todo(H) != 0 then CellWalk(lex, symmetrical, pass, d, xy, H) else [];
      ghost var v := if d.attr[xy] & Todo(V) != 0 then CellWalk(lex, symmetrical, pass, d, xy, V) else [];
      ghost var goal := tried + (h + v);
      SuccessesAppend(lex, symmetrical, h, v);
      cnt := 0;
      if d.attr[xy] & Todo(H) != 0 {
        cnt := WalkCell(pass, d, xy, H);
      }
      assert goal == tried + v;
      if d.attr[xy] & Todo(V) != 0 {
        var c := WalkCell(pass, d, xy, V);
        cnt := cnt + c;
      }
      assert tried + [] == tried;
    }

    /**
     * The tight or the adjacent pass over one level: walk the level's
     * diagonal from its first cell down to the border and, at each cell,
     * run the pass; stop after the first cell where a grid was placed.
     */
    method Diagonal(pass: Pass, d: Node, level: int) returns (hasplace: int)
      requires Setup() && Valid() && NodeOk(lex, d) && d.numword + 1 >= floor && 0 <= level <= GRIDMAX * 2 - 4
      modifies this, scores
      ensures Kept() && tried == old(tried) + DiagTries(lex, symmetrical, pass, d, LevelStart(level))
      ensures hasplace == Successes(lex, symmetrical, DiagTries(lex, symmetrical, pass, d, LevelStart(level)))
    {
      var xy := level2xy[level];
      ghost var run := DiagTries(lex, symmetrical, pass, d, xy);
      ghost var goal, total := tried + run, Successes(lex, symmetrical, run);
      hasplace := 0;
      while d.attr[xy] & BORDER == 0
        invariant hasplace == 0 && DiagAhead(pass, d, xy, goal, total)
        decreases CELLS - xy
      {
        hasplace := DiagNext(pass, d, xy, goal, total);
        if hasplace > 0 {
          break;
        }
        xy := xy + GRIDMAX - 1;
      }
      if hasplace == 0 {
        DiagResumesEnd(lex, symmetrical, pass, d, xy, tried, goal, total);
      }
    }

    /** The state is kept, and the pass down a level's diagonal resumes at xy. */
    twostate predicate DiagAhead(pass: Pass, d: Node, xy: int, goal: seq<Attempt>, total: nat)
      reads this, scores
    {
      Kept() && DiagResumes(lex, symmetrical, pass, d, xy, tried, goal, total)
    }

    /** One cell of the tight or adjacent pass down a diagonal, midway through it. */
    method DiagNext(pass: Pass, d: Node, xy: int, ghost goal: seq<Attempt>, ghost total: nat) returns (cnt: int)
      requires Setup() && Valid() && d.numword + 1 >= floor
      requires DiagResumes(lex, symmetrical, pass, d, xy, tried, goal, total) && d.attr[xy] & BORDER == 0
      modifies this, scores
      ensures Kept() && 0 <= xy + GRIDMAX - 1 < CELLS && cnt >= 0
      ensures cnt > 0 ==> goal == tried && total == cnt
      ensures cnt == 0 ==> DiagAhead(pass, d, xy + GRIDMAX - 1, goal, total)
    {
      DiagResumesStep(lex, symmetrical, pass, d, xy, tried, goal, total);
      cnt := DiagCell(pass, d, xy);
    }

    /**
     * The fragment pass at one cell in one orientation: try the words
     * through the cell's letter anchored on a cell without a star and, when
     * none is placed, prune around the cell.
     */
    method FragmentCell(d: Node, xy: int, dir: Dir) returns (r: Node, cnt: int, abort: bool)
      requires Setup() && Valid() && NodeOk(lex, d) && d.numword + 1 >= floor && 0 <= xy < CELLS && !OnBorder(xy)
      modifies this, scores
      ensures Kept() && tried == old(tried) + CellWalk(lex, symmetrical, FragmentPass, d, xy, dir)
      ensures cnt == Successes(lex, symmetrical, CellWalk(lex, symmetrical, FragmentPass, d, xy, dir))
      ensures cnt == 0 ==> (r, abort) == Pruning(symmetrical, d, xy, dir)
      ensures cnt > 0 ==> r == d && !abort
      ensures var c := FragCell(lex, symmetrical, d, xy, dir); r == c.node && cnt == c.cnt && abort == c.abort
    {
      cnt := WalkCell(FragmentPass, d, xy, dir);
      r, abort := d, false;
      if cnt == 0 {
        r, abort := Prune(symmetrical, d, xy, dir);
      }
    }

    /**
     * The fragment pass at cell xy of a level's walk: across when the cell
     * wants a word across, then, unless that abandoned the scan, down when
     * it still wants a word down.
     */
    method FragmentAt(d: Node, xy: int) returns (r: Node, cnt: int, abort: bool)
      requires Setup() && Valid() && NodeOk(lex, d) && d.numword + 1 >= floor && 0 <= xy < CELLS && !OnBorder(xy)
      modifies this, scores
      ensures var a := FragAt(lex, symmetrical, d, xy);
        Kept() && tried == old(tried) + a.tries && r == a.node && cnt == a.cnt && abort == a.abort
    {
      ghost var t0 := tried;
      ghost var h := FragAcross(lex, symmetrical, d, xy);
      FragAtStep(lex, symmetrical, d, xy, t0);
      r, cnt, abort := d, 0, false;
      if d.attr[xy] & Todo(H) != 0 {
        r, cnt, abort := FragmentCell(d, xy, H);
      } else {
        assert t0 + [] == t0;
      }
      assert tried == t0 + h.tries && r == h.node && cnt == h.cnt && abort == h.abort;
      if !abort && r.attr[xy] & Todo(V) != 0 {
        var c;
        r, c, abort := FragmentCell(r, xy, V);
        cnt := cnt + c;
      }
    }

    /** The state is kept, and the fragment pass over a level resumes at xy. */
    twostate predicate FragAhead(d: Node, xy: int, hasfree: bool, goal: seq<Attempt>, fin: FragRun)
      reads this, scores
    {
      Kept() && FragResumes(lex, symmetrical, d, xy, hasfree, tried, goal, fin)
    }

    /**
     * One cell of the fragment pass over a level: note a free cell, then
     * run the fragment pass there.
     */
    method FragmentNext(d: Node, xy: int, hasfree: bool, ghost goal: seq<Attempt>, ghost fin: FragRun)
      returns (r: Node, cnt: int, hf: bool, abort: bool)
      requires Setup() && Valid() && d.numword + 1 >= floor
      requires FragResumes(lex, symmetrical, d, xy, hasfree, tried, goal, fin) && d.attr[xy] & BORDER == 0
      modifies this, scores
      ensures Kept() && r.numword == d.numword && 0 <= xy + GRIDMAX - 1 < CELLS && cnt >= 0
      ensures abort || cnt > 0 ==> goal == tried && fin == FragRun(fin.tries, r, cnt, hf, abort)
      ensures !(abort || cnt > 0) ==> FragAhead(r, xy + GRIDMAX - 1, hf, goal, fin)
    {
      FragResumesStep(lex, symmetrical, d, xy, hasfree, tried, goal, fin);
      hf := hasfree || d.grid[xy] == FREE;
      r, cnt, abort := FragmentAt(d, xy);
    }

    /**
     * The fragment pass over one level: walk the level's diagonal, noting
     * whether a free cell was seen; at each cell run the fragment pass;
     * stop after the first cell where a grid was placed, or when pruning
     * abandons the scan.
     */
    method FragmentSweep(d: Node, level: int) returns (r: Node, hasplace: int, hasfree: bool, abort: bool)
      requires Setup() && Valid() && NodeOk(lex, d) && d.numword + 1 >= floor && 0 <= level <= GRIDMAX * 2 - 4
      modifies this, scores
      ensures var w := FragWalk(lex, symmetrical, d, LevelStart(level), false);
        Kept() && tried == old(tried) + w.tries &&
        r == w.node && hasplace == w.hasplace && hasfree == w.hasfree && abort == w.abort
    {
      var xy := level2xy[level];
      ghost var fin := FragWalk(lex, symmetrical, d, xy, false);
      ghost var goal := tried + fin.tries;
      r, hasplace, hasfree, abort := d, 0, false, false;
      while r.attr[xy] & BORDER == 0
        invariant r.numword == d.numword && hasplace == 0 && !abort
        invariant FragAhead(r, xy, hasfree, goal, fin)
        decreases CELLS - xy
      {
        var cnt;
        r, cnt, hasfree, abort := FragmentNext(r, xy, hasfree, goal, fin);
        if abort || cnt > 0 {
          hasplace := cnt;
          break;
        }
        xy := xy + GRIDMAX - 1;
      }
      if !abort && hasplace == 0 {
        FragResumesEnd(lex, symmetrical, r, xy, hasfree, tried, goal, fin);
      }
    }

    /**
     * One level of the sweep: the tight pass (not under symmetry), then the
     * adjacent pass, then the fragment pass, each only when the one before
     * placed nothing. When nothing was placed and the level holds no free
     * cell, the hotspot moves past the level.
     */
    method SweepLevel(d: Node, level: int) returns (r: Node, stop: bool)
      requires Setup() && Valid() && NodeOk(lex, d) && d.numword + 1 >= floor
      requires 0 <= level <= GRIDMAX * 2 - 4 && d.firstlevel <= level
      modifies this, scores
      ensures var s := LevelSweep(lex, symmetrical, d, level);
        Kept() && tried == old(tried) + s.tries && r == s.node && stop == s.stop
    {
      ghost var t0 := tried;
      LevelStep(lex, symmetrical, d, level, t0);
      r, stop := d, true;
      var hasplace := 0;
      if !symmetrical {
        hasplace := Diagonal(TightPass, d, level);
      }
      assert tried == t0 + TightTries(lex, symmetrical, d, level);
      if hasplace == 0 {
        hasplace := Diagonal(AdjacentPass, d, level);
        if hasplace == 0 {
          var hasfree, abort;
          r, hasplace, hasfree, abort := FragmentSweep(d, level);
          stop := abort || hasplace > 0;
          if !stop && !hasfree {
            r := r.(firstlevel := level + 1);
          }
        }
      }
    }

    /** The state is kept, and the sweep resumes at the given level. */
    twostate predicate SweepAhead(d: Node, level: int, goal: seq<Attempt>, fin: SweepOut)
      reads this, scores
    {
      Kept() && SweepResumes(lex, symmetrical, d, level, tried, goal, fin)
    }

    /** One level of the sweep of scan_grid, midway through it. */
    method SweepNext(d: Node, level: int, ghost goal: seq<Attempt>, ghost fin: SweepOut) returns (r: Node, stop: bool)
      requires Setup() && Valid() && d.numword + 1 >= floor
      requires SweepResumes(lex, symmetrical, d, level, tried, goal, fin) && level <= d.lastlevel && level <= GRIDMAX * 2 - 4
      modifies this, scores
      ensures Kept() && r.numword == d.numword
      ensures stop ==> goal == tried && fin.node == r
      ensures !stop ==> SweepAhead(r, level + 1, goal, fin)
    {
      SweepResumesStep(lex, symmetrical, d, level, tried, goal, fin);
      r, stop := SweepLevel(d, level);
    }

    /**
     * The sweep of scan_grid: the levels from the hotspot to the last level
     * with a letter (at most 2*GRIDMAX-4), one after the other, until a level
     * places a grid or pruning abandons the scan.
     */
    method Sweep(d0: Node) returns (d: Node)
      requires Setup() && Valid() && NodeOk(lex, d0) && d0.numword + 1 >= floor
      modifies this, scores
      ensures var s := SweepRun(lex, symmetrical, d0, d0.firstlevel);
        Kept() && tried == old(tried) + s.tries && d == s.node
    {
      ghost var fin := SweepRun(lex, symmetrical, d0, d0.firstlevel);
      ghost var goal := tried + fin.tries;
      d := d0;
      var level := d.firstlevel;
      var stop := false;
      while level <= d.lastlevel && level <= GRIDMAX * 2 - 4
        invariant d.numword == d0.numword && !stop && SweepAhead(d, level, goal, fin)
        decreases GRIDMAX * 2 - 4 - level
      {
        d, stop := SweepNext(d, level, goal, fin);
        if stop {
          break;
        }
        level := level + 1;
      }
      if !stop {
        SweepResumesEnd(lex, symmetrical, d, level, tried, goal, fin);
      }
    }

    /**
     * scan_grid: expand grid d0. Under symmetry a pending mirror word comes
     * first; then the most recent pending crossing; otherwise d0 competes
     * for the best grid and is swept for new words. d is d0 as the scan
     * leaves it.
     */
    method ScanGrid(d0: Node) returns (d: Node)
      requires Setup() && Valid() && NodeOk(lex, d0) && d0.numword + 1 >= floor
      modifies this, scores
      ensures Valid() && scores == old(scores) && InHand() == old(InHand()) && Carried() == old(Carried())
      ensures floor == old(floor) && old(tried) <= tried && solution.numword >= old(solution.numword)
      ensures symmetrical && d0.symdir.Sym? ==>
        d == d0 && solution == old(solution) && tried == old(tried) + SymTries(lex, d0, d0.symdir.dir, |lex.words|)
      ensures !(symmetrical && d0.symdir.Sym?) && |d0.adj| > 0 ==>
        d == d0.(adj := d0.adj[..|d0.adj| - 1]) && solution == old(solution) &&
        tried == old(tried) + ChainTries(lex, d, d0.adj[|d0.adj| - 1].xy, d0.adj[|d0.adj| - 1].dir, d0.adj[|d0.adj| - 1].l)
      ensures !(symmetrical && d0.symdir.Sym?) && |d0.adj| == 0 ==>
        solution == (if d0.numword > old(solution).numword then d0 else old(solution)) &&
        tried == old(tried) + SweepRun(lex, symmetrical, d0, d0.firstlevel).tries &&
        d == SweepRun(lex, symmetrical, d0, d0.firstlevel).node &&
        Pruned(d0, d) && Swept(tried, d0, |old(tried)|) &&
        (d.firstlevel == d0.firstlevel ||
         (d0.firstlevel < d.firstlevel && d.firstlevel <= d0.lastlevel + 1 && d.firstlevel <= GRIDMAX * 2 - 3 &&
          Filled(d.grid, d.firstlevel - 1)))
    {
      if symmetrical && d0.symdir.Sym? {
        MirrorWord(d0, d0.symdir.dir);
        return d0;
      }
      if |d0.adj| > 0 {
        var top := d0.adj[|d0.adj| - 1];
        d := d0.(adj := d0.adj[..|d0.adj| - 1]);
        assert top in d0.adj;
        WalkChain(d, top.xy, top.dir, top.l);
        return;
      }
      if d0.numword > solution.numword {
        solution := d0;
      }
      ghost var t0 := tried;
      d := Sweep(d0);
      SweptOf(t0, SweepRun(lex, symmetrical, d0, d0.firstlevel).tries, d0);
    }

    /**
     * The gathering step of kick_ass: the buckets from the highest down,
     * each appended in its own order to one list, and emptied.
     */
    method Gather() returns (order: seq<Node>)
      requires Setup() && Valid()
      modifies scores
      ensures Valid()
      ensures order == Gathered(old(scores[..]), 0) && |order| == old(Total(scores[..]))
      ensures Sorted(order) && forall x :: x in order ==> NodeOk(lex, x) && x.numword >= floor
      ensures forall i :: 0 <= i < SCOREMAX ==> scores[i] == []
      ensures Total(scores[..]) == 0
    {
      ghost var ss0 := scores[..];
      forall b | 0 <= b < SCOREMAX
        ensures BucketOk(lex, ss0[b], b) && Deep(ss0[b], floor)
      {
        assert BandOk(lex, ss0, floor, b);
      }
      GatheredOk(lex, ss0, 0, floor);
      GatheredSize(ss0, 0);
      assert ss0[..0] == [];
      order := GatherBuckets(scores);
      EmptyFrontier(lex, scores[..], floor);
    }

    /**
     * The expansion loop of kick_ass: each gathered grid in turn is scanned
     * when it has pending crossings or fewer than nodemax complete grids
     * were filed in this round, and then goes back to the free list.
     */
    method Drain(order: seq<Node>)
      requires Setup() && Valid()
      requires forall x :: x in order ==> NodeOk(lex, x) && x.numword + 1 >= floor
      modifies this, scores
      ensures Valid() && scores == old(scores) && floor == old(floor)
      ensures InHand() == old(InHand()) - |order| && Carried() == old(Carried())
      ensures solution.numword >= old(solution.numword) && old(tried) <= tried
    {
      var k := 0;
      while k < |order|
        invariant 0 <= k <= |order|
        invariant Valid() && scores == old(scores) && floor == old(floor)
        invariant InHand() == old(InHand()) - k && Carried() == old(Carried())
        invariant solution.numword >= old(solution.numword) && old(tried) <= tried
      {
        var d := order[k];
        if |d.adj| > 0 || numnode < nodemax {
          d := ScanGrid(d);
        }
        freenode := [d] + freenode;
        k := k + 1;
      }
    }

    /**
     * One round of kick_ass: reset the round's counters, gather the
     * frontier into one list, best first, and expand every grid of it.
     * Every grid filed in the round holds one word more than a grid of the
     * gathered list, so the word floor goes up by one.
     */
    method Round() returns (ghost order: seq<Node>)
      requires Setup() && Valid()
      modifies this, scores
      ensures Valid() && scores == old(scores) && floor == old(floor) + 1
      ensures order == Gathered(old(scores[..]), 0) && Sorted(order)
      ensures Total(scores[..]) == realnumnode
      ensures InHand() == old(InHand())
      ensures solution.numword >= old(solution.numword) && old(tried) <= tried
    {
      realnumnode := 0;
      numnode := 0;
      var todo := Gather();
      order := todo;
      floor := floor + 1;
      EmptyFrontier(lex, scores[..], floor);
      Drain(todo);
    }

    /**
     * kick_ass: rounds until one files no grid or the timer has expired;
     * timeUp(r) is the timer test after r rounds. A round that goes on
     * raises the word floor, and no grid holds more words than the list,
     * so there are at most |words| + 1 rounds.
     */
    method KickAss(timeUp: nat -> bool) returns (outcome: Outcome, rounds: nat)
      requires Setup() && Valid()
      modifies this, scores
      ensures Valid() && scores == old(scores)
      ensures rounds >= 1 && forall r :: 1 <= r < rounds ==> !timeUp(r)
      ensures outcome == TimedOut <==> timeUp(rounds)
      ensures outcome == Converged ==> Total(scores[..]) == 0
      ensures rounds == 1 || old(floor) + rounds <= |lex.words| + 1
      ensures InHand() == old(InHand()) && solution.numword >= old(solution.numword) && old(tried) <= tried
    {
      rounds := 0;
      while true
        invariant Valid() && scores == old(scores) && floor == old(floor) + rounds
        invariant rounds == 0 || floor <= |lex.words|
        invariant forall r :: 1 <= r <= rounds ==> !timeUp(r)
        invariant InHand() == old(InHand()) && solution.numword >= old(solution.numword) && old(tried) <= tried
        decreases |lex.words| + 1 - floor
      {
        ghost var order := Round();
        rounds := rounds + 1;
        if timeUp(rounds) {
          return TimedOut, rounds;
        }
        if realnumnode == 0 {
          return Converged, rounds;
        }
        FrontierBound(lex, scores[..], floor);
      }
    }

    /**
     * The starting words of main, from the last word to the first: under
     * symmetry every word of at least 5 codes, horizontally through the
     * middle row, after resetting the start grid's hash; otherwise every
     * word at the start of row 1, after moving the start grid's hotspot to
     * level 2. d is the start grid as main leaves it.
     */
    method SeedWords(d0: Node) returns (d: Node)
      requires Setup() && Valid() && NodeOk(lex, d0) && d0.numword + 1 >= floor
      modifies this, scores
      ensures Kept() && tried == old(tried) + SeedTries(lex, symmetrical, d0, |lex.words|)
      ensures d == d0 || d == SeedBase(symmetrical, d0)
    {
      ghost var goal := tried + SeedTries(lex, symmetrical, d0, |lex.words|);
      d := d0;
      var w := |lex.words| - 1;
      while w >= 0
        invariant -1 <= w < |lex.words|
        invariant Kept() && goal == tried + SeedTries(lex, symmetrical, d0, w + 1)
        invariant d == d0 || d == SeedBase(symmetrical, d0)
      {
        d := SeedWord(d0, d, w);
        w := w - 1;
      }
    }

    /** One pass of the starting loop of main: word w is tried on the start grid, if main tries it. */
    method SeedWord(d0: Node, d: Node, w: int) returns (d': Node)
      requires Setup() && Valid() && NodeOk(lex, d0) && d0.numword + 1 >= floor && 0 <= w < |lex.words|
      requires d == d0 || d == SeedBase(symmetrical, d0)
      modifies this, scores
      ensures Kept() && tried + SeedTries(lex, symmetrical, d0, w) == old(tried) + SeedTries(lex, symmetrical, d0, w + 1)
      ensures d' == d0 || d' == SeedBase(symmetrical, d0)
    {
      SeedStep(lex, symmetrical, d0, w + 1, tried);
      d' := d;
      if symmetrical {
        if |lex.words[w]| >= 5 {
          d' := d.(hash := 0);
          TryWord(d', CentreAnchor(|lex.words[w]|), w, H, Seed);
        }
      } else {
        d' := d.(firstlevel := 2);
        TryWord(d', GRIDMAX, w, H, Seed);
      }
    }
  }

  /** The loop of the gathering step: the buckets from the highest down, each appended to one list and emptied. */
  method GatherBuckets(scores: array<seq<Node>>) returns (order: seq<Node>)
    modifies scores
    ensures order == Gathered(old(scores[..]), 0)
    ensures forall i :: 0 <= i < scores.Length ==> scores[i] == []
  {
    ghost var ss0 := scores[..];
    order := [];
    var i := scores.Length - 1;
    while i >= 0
      invariant -1 <= i < scores.Length
      invariant order == Gathered(ss0, i + 1)
      invariant forall j :: i < j < scores.Length ==> scores[j] == []
      invariant forall j :: 0 <= j <= i ==> scores[j] == ss0[j]
    {
      order := order + scores[i];
      scores[i] := [];
      i := i - 1;
    }
  }

  /**
   * The walk of add_node down one bucket: past every grid that goes strictly
   * before d, then past the grids with d's score and hash, comparing each
   * with d. Either an equal grid turns up, or p is where d goes so that the
   * bucket stays sorted.
   */
  method FindSlot(lex: Lexicon, d: Node, s: seq<Node>, b: int) returns (p: int, twin: bool)
    requires BucketOk(lex, s, b) && NodeOk(lex, d) && Bucket(d) == b
    ensures 0 <= p <= |s|
    ensures twin <==> HasTwin(s, d)
    ensures !twin ==> BucketOk(lex, s[..p] + [d] + s[p..], b)
  {
    p := 0;
    while p < |s| && !Geq(d, s[p])
      invariant 0 <= p <= |s|
      invariant forall j :: 0 <= j < p ==> !Geq(d, s[j])
    {
      p := p + 1;
    }
    var p0 := p;
    twin := false;
    while p < |s| && SameKey(d, s[p])
      invariant p0 <= p <= |s|
      invariant forall j :: p0 <= j < p ==> SameKey(d, s[j]) && s[j].grid != d.grid
    {
      if d.grid == s[p].grid {
        twin := true;
        break;
      }
      p := p + 1;
    }
    if !twin {
      Filed(lex, s, p0, p, d, b);
    }
  }

  /**
   * The pruning of the fragment pass when no word through xy in
   * orientation dir was placed: the cell no longer wants such a word, the
   * cells before and after it in that orientation become stars, and under
   * symmetry so do their mirror cells, the one before first, unless a
   * mirror cell holds a letter, which abandons the scan.
   */
  method Prune(sym: bool, d: Node, xy: int, dir: Dir) returns (r: Node, abort: bool)
    requires |d.grid| == CELLS && |d.attr| == CELLS && 0 <= xy < CELLS && !OnBorder(xy)
    ensures (r, abort) == Pruning(sym, d, xy, dir)
    ensures r == d.(grid := r.grid, attr := Cleared(d.attr, xy, dir))
    ensures !sym ==> !abort && r.grid == d.grid[xy - Stride(dir) := STAR][xy + Stride(dir) := STAR]
    ensures sym && !abort ==>
      r.grid == d.grid[xy - Stride(dir) := STAR][xy + Stride(dir) := STAR]
                      [Mirror(xy - Stride(dir)) := STAR][Mirror(xy + Stride(dir)) := STAR]
    ensures abort <==> sym && (IsChar(d.grid[Mirror(xy - Stride(dir))]) || IsChar(d.grid[Mirror(xy + Stride(dir))]))
  {
    InteriorNeighbours(xy);
    var s := Stride(dir);
    r := NeighbourStars(d, xy, dir);
    abort := false;
    if sym {
      var g := r.grid;
      g, abort := StarMirror(g, xy - s);
      if !abort {
        g, abort := StarMirror(g, xy + s);
      }
      r := r.(grid := g);
    }
  }

  /** The first half of pruning: clear the hint and star the cells before and after xy in orientation dir. */
  method NeighbourStars(d: Node, xy: int, dir: Dir) returns (r: Node)
    requires |d.grid| == CELLS && |d.attr| == CELLS && GRIDMAX <= xy < CELLS - GRIDMAX
    ensures r == d.(grid := r.grid, attr := Cleared(d.attr, xy, dir))
    ensures r.grid == d.grid[xy - Stride(dir) := STAR][xy + Stride(dir) := STAR]
  {
    var s := Stride(dir);
    r := d.(attr := Cleared(d.attr, xy, dir), grid := d.grid[xy - s := STAR][xy + s := STAR]);
  }

  /** The symmetric half of pruning: star the mirror of cell c, unless it holds a letter. */
  method StarMirror(g: seq<int>, c: int) returns (h: seq<int>, abort: bool)
    requires |g| == CELLS && 0 <= c < CELLS
    ensures abort <==> IsChar(g[Mirror(c)])
    ensures h == if abort then g else g[Mirror(c) := STAR]
  {
    if IsChar(g[Mirror(c)]) {
      return g, true;
    }
    h, abort := g[Mirror(c) := STAR], false;
  }
}
