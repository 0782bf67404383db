/**
 * The write phase of place_hword / place_vword: the accepted word is
 * written into a copy of the node, cell by cell, with the counters, the
 * incremental hash, the TODOH/TODOV hints, the worklist, the hotspot and
 * the symmetry anchor updated on the way.
 */
module Write {
  import opened Consts
  import opened Words
  import opened Links
  import opened Grid
  import opened Place

  /** The hash contribution of letter c newly written at cell xy. */
  function HashTerm(xy: int, c: int): int
  {
    (123456 + xy) * (123456 - c)
  }

  /** The entry is the pending word of orientation dir whose window starts at xy. */
  predicate IsPending(e: Adj, dir: Dir, xy: int)
  {
    e.dir == dir && e.xy == xy
  }

  /** Index of the first pending entry (dir, xy) from index i on, or |adj| when there is none. */
  function FindPending(adj: seq<Adj>, dir: Dir, xy: int, i: int): (r: int)
    requires 0 <= i <= |adj|
    ensures i <= r <= |adj|
    decreases |adj| - i
  {
    if i == |adj| || IsPending(adj[i], dir, xy) then i else FindPending(adj, dir, xy, i + 1)
  }

  /** The search stops at the first pending entry, or at the end when there is none. */
  lemma {:induction false} FindPendingSpec(adj: seq<Adj>, dir: Dir, xy: int, i: int)
    requires 0 <= i <= |adj|
    ensures var r := FindPending(adj, dir, xy, i);
      (r < |adj| ==> IsPending(adj[r], dir, xy)) &&
      forall j :: i <= j < r ==> !IsPending(adj[j], dir, xy)
    decreases |adj| - i
  {
    if i < |adj| && !IsPending(adj[i], dir, xy) {
      FindPendingSpec(adj, dir, xy, i + 1);
    }
  }

  /** The swap-remove: the first pending entry (dir, xy) is overwritten by the last one and the list shrinks. */
  function RemovePending(adj: seq<Adj>, dir: Dir, xy: int): seq<Adj>
  {
    var i := FindPending(adj, dir, xy, 0);
    if i == |adj| then adj else adj[i := adj[|adj| - 1]][..|adj| - 1]
  }

  /** Overwriting entry i by the last one and dropping the last takes out exactly entry i. */
  lemma SwapMultiset(adj: seq<Adj>, i: int)
    requires 0 <= i < |adj|
    ensures multiset(adj) == multiset(adj[i := adj[|adj| - 1]][..|adj| - 1]) + multiset{adj[i]}
  {
    var last := |adj| - 1;
    var t := adj[i := adj[last]];
    assert t == t[..last] + [adj[last]];
    assert multiset(t) == multiset(t[..last]) + multiset{adj[last]};
    assert multiset(t) == multiset(adj) - multiset{adj[i]} + multiset{adj[last]};
    MultisetCancel(multiset(t[..last]), multiset(adj), adj[i], adj[last]);
  }

  /** Taking x out of b and adding y gives a plus y: then b is a plus x. */
  lemma MultisetCancel(a: multiset<Adj>, b: multiset<Adj>, x: Adj, y: Adj)
    requires x in b && a + multiset{y} == b - multiset{x} + multiset{y}
    ensures b == a + multiset{x}
  {
    forall e
      ensures a[e] == (b - multiset{x})[e]
    {
      assert (a + multiset{y})[e] == (b - multiset{x} + multiset{y})[e];
    }
    assert a == b - multiset{x};
  }

  /**
   * The swap-remove takes out one entry exactly when a pending entry
   * (dir, xy) exists, takes out nothing else, and only reorders the rest.
   */
  lemma SwapRemove(adj: seq<Adj>, dir: Dir, xy: int)
    ensures var r := RemovePending(adj, dir, xy);
      (|r| == |adj| - 1 <==> exists j :: 0 <= j < |adj| && IsPending(adj[j], dir, xy)) &&
      (|r| == |adj| <==> forall j :: 0 <= j < |adj| ==> !IsPending(adj[j], dir, xy)) &&
      multiset(r) <= multiset(adj) &&
      (forall e :: e in multiset(adj) - multiset(r) ==> IsPending(e, dir, xy))
  {
    var i := FindPending(adj, dir, xy, 0);
    FindPendingSpec(adj, dir, xy, 0);
    if i < |adj| {
      SwapMultiset(adj, i);
    }
  }

  /**
   * One step of the copy loop: code c of the word goes to cell xy. A letter
   * clears the hint of its own orientation there and removes the pending
   * entry of its own orientation at xy; on a free cell it is new (hash,
   * numchar, and the hint across), otherwise it is a crossing (numconn).
   */
  function WriteCell(n: Node, xy: int, c: int, dir: Dir): (r: Node)
    requires |n.grid| == CELLS && |n.attr| == CELLS && 0 <= xy < CELLS
  {
    if c == STAR then n.(grid := n.grid[xy := c])
    else WriteLetter(n, xy, c, dir, RemovePending(n.adj, dir, xy))
  }

  /** A letter written, given the worklist after the swap-remove. */
  function WriteLetter(n: Node, xy: int, c: int, dir: Dir, adj: seq<Adj>): (r: Node)
    requires |n.grid| == CELLS && |n.attr| == CELLS && 0 <= xy < CELLS
  {
    var a := Hint(n.attr[xy], n.grid[xy] == FREE, dir);
    if n.grid[xy] == FREE then
      n.(hash := (n.hash + HashTerm(xy, c)) % HASHMOD, attr := n.attr[xy := a],
         numchar := n.numchar + 1, adj := adj, grid := n.grid[xy := c])
    else
      n.(attr := n.attr[xy := a], numconn := n.numconn + 1, adj := adj, grid := n.grid[xy := c])
  }

  /**
   * The hints of a cell that receives a letter of a word of orientation dir:
   * that orientation is done there, and a new letter may start a word across.
   */
  function Hint(a: bv8, isNew: bool, dir: Dir): bv8
  {
    if isNew then (a & !Todo(dir)) | Todo(Across(dir)) else a & !Todo(dir)
  }

  /** The first k steps of the copy loop for word codes `word` anchored at xybase. */
  function WriteTo(n: Node, xybase: int, word: seq<int>, dir: Dir, k: int): (r: Node)
    requires |n.grid| == CELLS && |n.attr| == CELLS && Fits(xybase, |word|, dir) && 0 <= k <= |word|
    ensures |r.grid| == CELLS && |r.attr| == CELLS && |r.adj| <= |n.adj|
    ensures r.words == n.words && r.numword == n.numword && r.firstlevel == n.firstlevel &&
            r.lastlevel == n.lastlevel && r.symdir == n.symdir && r.symxy == n.symxy && r.symlen == n.symlen
    decreases k
  {
    if k == 0 then n
    else WriteCell(WriteTo(n, xybase, word, dir, k - 1), CellOf(xybase, k - 1, dir), word[k - 1], dir)
  }

  /** Cell xy is none of the first k cells of the word. */
  predicate Off(xybase: int, k: int, dir: Dir, xy: int)
  {
    forall j :: 0 <= j < k ==> CellOf(xybase, j, dir) != xy
  }

  /** The number of letters among the first k codes. */
  function Letters(word: seq<int>, k: int): int
    requires 0 <= k <= |word|
    decreases k
  {
    if k == 0 then 0 else Letters(word, k - 1) + (if word[k - 1] != STAR then 1 else 0)
  }

  /** Letter j of the word goes to a cell that is free in g. */
  predicate Fresh(g: seq<int>, xybase: int, word: seq<int>, dir: Dir, j: int)
    requires |g| == CELLS && Fits(xybase, |word|, dir) && 0 <= j < |word|
  {
    word[j] != STAR && g[CellOf(xybase, j, dir)] == FREE
  }

  /** The number of new letters among the first k codes. */
  function FreshCount(g: seq<int>, xybase: int, word: seq<int>, dir: Dir, k: int): int
    requires |g| == CELLS && Fits(xybase, |word|, dir) && 0 <= k <= |word|
    decreases k
  {
    if k == 0 then 0
    else FreshCount(g, xybase, word, dir, k - 1) + (if Fresh(g, xybase, word, dir, k - 1) then 1 else 0)
  }

  /** The sum of the hash contributions of the new letters among the first k codes. */
  function FreshHash(g: seq<int>, xybase: int, word: seq<int>, dir: Dir, k: int): int
    requires |g| == CELLS && Fits(xybase, |word|, dir) && 0 <= k <= |word|
    decreases k
  {
    if k == 0 then 0
    else
      FreshHash(g, xybase, word, dir, k - 1) +
      (if Fresh(g, xybase, word, dir, k - 1) then HashTerm(CellOf(xybase, k - 1, dir), word[k - 1]) else 0)
  }

  /** Adding under the modulus one term at a time is adding the sum once. */
  lemma ModAdd(a: int, b: int)
    ensures (a % HASHMOD + b) % HASHMOD == (a + b) % HASHMOD
  {
  }

  /** Folding one more term into a running hash is adding it to the sum. */
  lemma HashStep(h0: int, h: int, s: int, t: int)
    requires h == (h0 + s) % HASHMOD
    ensures (h + t) % HASHMOD == (h0 + (s + t)) % HASHMOD
  {
    ModAdd(h0 + s, t);
  }

  /** The hints never touch the border bit. */
  lemma BorderKept(a: bv8, isNew: bool, dir: Dir)
    ensures Hint(a, isNew, dir) & BORDER == a & BORDER
  {
    assert Todo(dir) & BORDER == 0 && Todo(Across(dir)) & BORDER == 0;
  }

  /** One step writes code c to cell xy of the grid. */
  lemma WriteCellGrid(n: Node, xy: int, c: int, dir: Dir)
    requires |n.grid| == CELLS && |n.attr| == CELLS && 0 <= xy < CELLS
    ensures WriteCell(n, xy, c, dir).grid == n.grid[xy := c]
  {
  }

  /** One step changes the hints of cell xy only, and keeps its border bit. */
  lemma WriteCellAttr(n: Node, xy: int, c: int, dir: Dir)
    requires |n.grid| == CELLS && |n.attr| == CELLS && 0 <= xy < CELLS
    ensures WriteCell(n, xy, c, dir).attr ==
      if c == STAR then n.attr else n.attr[xy := Hint(n.attr[xy], n.grid[xy] == FREE, dir)]
    ensures WriteCell(n, xy, c, dir).attr[xy] & BORDER == n.attr[xy] & BORDER
  {
    BorderKept(n.attr[xy], n.grid[xy] == FREE, dir);
  }

  /** After the first k steps every cell outside the word's first k cells is unchanged. */
  lemma {:induction false} WriteToOff(n: Node, xybase: int, word: seq<int>, dir: Dir, k: int)
    requires |n.grid| == CELLS && |n.attr| == CELLS && Fits(xybase, |word|, dir) && 0 <= k <= |word|
    ensures var r := WriteTo(n, xybase, word, dir, k);
      forall xy :: 0 <= xy < CELLS && Off(xybase, k, dir, xy) ==> r.grid[xy] == n.grid[xy] && r.attr[xy] == n.attr[xy]
    decreases k
  {
    if k > 0 {
      WriteToOff(n, xybase, word, dir, k - 1);
      WriteCellGrid(WriteTo(n, xybase, word, dir, k - 1), CellOf(xybase, k - 1, dir), word[k - 1], dir);
      WriteCellAttr(WriteTo(n, xybase, word, dir, k - 1), CellOf(xybase, k - 1, dir), word[k - 1], dir);
    }
  }

  /** After the first k steps the word's first k cells hold its codes. */
  lemma {:induction false} WriteToWord(n: Node, xybase: int, word: seq<int>, dir: Dir, k: int)
    requires |n.grid| == CELLS && |n.attr| == CELLS && Fits(xybase, |word|, dir) && 0 <= k <= |word|
    ensures var r := WriteTo(n, xybase, word, dir, k);
      forall j :: 0 <= j < k ==> r.grid[CellOf(xybase, j, dir)] == word[j]
    decreases k
  {
    if k > 0 {
      WriteToWord(n, xybase, word, dir, k - 1);
      WriteCellGrid(WriteTo(n, xybase, word, dir, k - 1), CellOf(xybase, k - 1, dir), word[k - 1], dir);
      WriteCellAttr(WriteTo(n, xybase, word, dir, k - 1), CellOf(xybase, k - 1, dir), word[k - 1], dir);
    }
  }

  /** No step touches the border bit of any cell. */
  lemma {:induction false} WriteToBorder(n: Node, xybase: int, word: seq<int>, dir: Dir, k: int)
    requires |n.grid| == CELLS && |n.attr| == CELLS && Fits(xybase, |word|, dir) && 0 <= k <= |word|
    ensures var r := WriteTo(n, xybase, word, dir, k);
      forall xy :: 0 <= xy < CELLS ==> r.attr[xy] & BORDER == n.attr[xy] & BORDER
    decreases k
  {
    if k > 0 {
      WriteToBorder(n, xybase, word, dir, k - 1);
      WriteCellGrid(WriteTo(n, xybase, word, dir, k - 1), CellOf(xybase, k - 1, dir), word[k - 1], dir);
      WriteCellAttr(WriteTo(n, xybase, word, dir, k - 1), CellOf(xybase, k - 1, dir), word[k - 1], dir);
    }
  }

  /**
   * After the first k steps the hints of the word's first k cells are the
   * input hints updated by Hint for each letter (its own orientation done,
   * the one across wanted on a new letter), and left alone for a star.
   */
  lemma {:induction false} WriteToAttr(n: Node, xybase: int, word: seq<int>, dir: Dir, k: int)
    requires |n.grid| == CELLS && |n.attr| == CELLS && Fits(xybase, |word|, dir) && 0 <= k <= |word|
    ensures forall j :: 0 <= j < k ==> HintedAt(WriteTo(n, xybase, word, dir, k).attr, n, xybase, word, dir, j)
    decreases k
  {
    if k > 0 {
      var p, c := WriteTo(n, xybase, word, dir, k - 1), CellOf(xybase, k - 1, dir);
      var r := WriteCell(p, c, word[k - 1], dir);
      WriteToAttr(n, xybase, word, dir, k - 1);
      WriteToOff(n, xybase, word, dir, k - 1);
      assert Off(xybase, k - 1, dir, c);
      WriteCellAttr(p, c, word[k - 1], dir);
      forall j | 0 <= j < k
        ensures HintedAt(r.attr, n, xybase, word, dir, j)
      {
        if j < k - 1 {
          assert HintedAt(p.attr, n, xybase, word, dir, j);
          assert CellOf(xybase, j, dir) != c;
        }
      }
    }
  }

  /** Cell j of the word carries in attr its input hints, updated by Hint when code j is a letter. */
  predicate HintedAt(attr: seq<bv8>, n: Node, xybase: int, word: seq<int>, dir: Dir, j: int)
    requires |n.grid| == CELLS && |n.attr| == CELLS && |attr| == CELLS && Fits(xybase, |word|, dir) && 0 <= j < |word|
  {
    var c := CellOf(xybase, j, dir);
    attr[c] == if word[j] == STAR then n.attr[c] else Hint(n.attr[c], n.grid[c] == FREE, dir)
  }

  /** Before step k the word's own cell k still holds the input code. */
  lemma CellBeforeWrite(n: Node, xybase: int, word: seq<int>, dir: Dir, k: int)
    requires |n.grid| == CELLS && |n.attr| == CELLS && Fits(xybase, |word|, dir) && 0 <= k < |word|
    ensures WriteTo(n, xybase, word, dir, k).grid[CellOf(xybase, k, dir)] == n.grid[CellOf(xybase, k, dir)]
  {
    WriteToOff(n, xybase, word, dir, k);
    assert Off(xybase, k, dir, CellOf(xybase, k, dir));
  }

  /** One step adds a new letter to numchar and the hash, a crossing letter to numconn. */
  lemma WriteCellCounts(n: Node, xy: int, c: int, dir: Dir)
    requires |n.grid| == CELLS && |n.attr| == CELLS && 0 <= xy < CELLS
    ensures var r := WriteCell(n, xy, c, dir);
      var isNew := c != STAR && n.grid[xy] == FREE;
      r.numchar == n.numchar + (if isNew then 1 else 0) &&
      r.numchar + r.numconn == n.numchar + n.numconn + (if c != STAR then 1 else 0) &&
      r.hash == (if isNew then (n.hash + HashTerm(xy, c)) % HASHMOD else n.hash)
  {
  }

  /** numchar and numconn after the first k steps: new letters and crossings are counted apart. */
  lemma {:induction false} WriteToCounts(n: Node, xybase: int, word: seq<int>, dir: Dir, k: int)
    requires |n.grid| == CELLS && |n.attr| == CELLS && Fits(xybase, |word|, dir) && 0 <= k <= |word|
    ensures var r := WriteTo(n, xybase, word, dir, k);
      r.numchar == n.numchar + FreshCount(n.grid, xybase, word, dir, k) &&
      r.numchar + r.numconn == n.numchar + n.numconn + Letters(word, k)
    decreases k
  {
    if k > 0 {
      WriteToCounts(n, xybase, word, dir, k - 1);
      StepCounts(n, xybase, word, dir, k);
    }
  }

  /** Step k of the copy loop counts its code as a new letter, a crossing, or neither. */
  lemma StepCounts(n: Node, xybase: int, word: seq<int>, dir: Dir, k: int)
    requires |n.grid| == CELLS && |n.attr| == CELLS && Fits(xybase, |word|, dir) && 0 < k <= |word|
    ensures var r, p := WriteTo(n, xybase, word, dir, k), WriteTo(n, xybase, word, dir, k - 1);
      r.numchar == p.numchar + (if Fresh(n.grid, xybase, word, dir, k - 1) then 1 else 0) &&
      r.numchar + r.numconn == p.numchar + p.numconn + (if word[k - 1] != STAR then 1 else 0)
  {
    CellBeforeWrite(n, xybase, word, dir, k - 1);
    WriteCellCounts(WriteTo(n, xybase, word, dir, k - 1), CellOf(xybase, k - 1, dir), word[k - 1], dir);
  }

  /** The running hash after the first k steps: each new letter's term added modulo 2^32 as it is written. */
  function FoldHash(h: int, g: seq<int>, xybase: int, word: seq<int>, dir: Dir, k: int): int
    requires |g| == CELLS && Fits(xybase, |word|, dir) && 0 <= k <= |word|
    decreases k
  {
    if k == 0 then h
    else
      var h' := FoldHash(h, g, xybase, word, dir, k - 1);
      if Fresh(g, xybase, word, dir, k - 1) then (h' + HashTerm(CellOf(xybase, k - 1, dir), word[k - 1])) % HASHMOD else h'
  }

  /** The running hash is the plain sum of the new letters' terms reduced once, whatever the order. */
  lemma {:induction false} FoldHashSum(h: int, g: seq<int>, xybase: int, word: seq<int>, dir: Dir, k: int)
    requires |g| == CELLS && Fits(xybase, |word|, dir) && 0 <= k <= |word| && 0 <= h < HASHMOD
    ensures FoldHash(h, g, xybase, word, dir, k) == (h + FreshHash(g, xybase, word, dir, k)) % HASHMOD
    decreases k
  {
    if k > 0 {
      FoldHashSum(h, g, xybase, word, dir, k - 1);
      if Fresh(g, xybase, word, dir, k - 1) {
        HashStep(h, FoldHash(h, g, xybase, word, dir, k - 1), FreshHash(g, xybase, word, dir, k - 1),
          HashTerm(CellOf(xybase, k - 1, dir), word[k - 1]));
      }
    }
  }

  /** The hash after the first k steps is the running hash of the new letters. */
  lemma {:induction false} WriteToHash(n: Node, xybase: int, word: seq<int>, dir: Dir, k: int)
    requires |n.grid| == CELLS && |n.attr| == CELLS && Fits(xybase, |word|, dir) && 0 <= k <= |word|
    ensures WriteTo(n, xybase, word, dir, k).hash == FoldHash(n.hash, n.grid, xybase, word, dir, k)
    decreases k
  {
    if k > 0 {
      WriteToHash(n, xybase, word, dir, k - 1);
      StepHash(n, xybase, word, dir, k);
    }
  }

  /** Step k of the copy loop keeps the hash equal to the running hash. */
  lemma StepHash(n: Node, xybase: int, word: seq<int>, dir: Dir, k: int)
    requires |n.grid| == CELLS && |n.attr| == CELLS && Fits(xybase, |word|, dir) && 0 < k <= |word|
    requires WriteTo(n, xybase, word, dir, k - 1).hash == FoldHash(n.hash, n.grid, xybase, word, dir, k - 1)
    ensures WriteTo(n, xybase, word, dir, k).hash == FoldHash(n.hash, n.grid, xybase, word, dir, k)
  {
    CellBeforeWrite(n, xybase, word, dir, k - 1);
    WriteCellHash(WriteTo(n, xybase, word, dir, k - 1), CellOf(xybase, k - 1, dir), word[k - 1], dir);
  }

  /** One step adds the term of a new letter to the hash, modulo 2^32. */
  lemma WriteCellHash(n: Node, xy: int, c: int, dir: Dir)
    requires |n.grid| == CELLS && |n.attr| == CELLS && 0 <= xy < CELLS
    ensures WriteCell(n, xy, c, dir).hash == if c != STAR && n.grid[xy] == FREE then (n.hash + HashTerm(xy, c)) % HASHMOD else n.hash
  {
  }

  /** One step removes at most the pending entry of its own orientation at a letter's cell. */
  lemma WriteCellAdj(n: Node, xy: int, c: int, dir: Dir)
    requires |n.grid| == CELLS && |n.attr| == CELLS && 0 <= xy < CELLS
    ensures var r := WriteCell(n, xy, c, dir);
      multiset(r.adj) <= multiset(n.adj) && |r.adj| >= |n.adj| - (if c != STAR then 1 else 0) &&
      forall e :: e in multiset(n.adj) - multiset(r.adj) ==> c != STAR && IsPending(e, dir, xy)
  {
    if c != STAR {
      SwapRemove(n.adj, dir, xy);
    }
  }

  /** What two successive removals take out is what either of them takes out. */
  lemma RemovedChain(a: multiset<Adj>, b: multiset<Adj>, c: multiset<Adj>)
    requires c <= b <= a
    ensures forall e :: e in a - c ==> e in a - b || e in b - c
  {
  }

  /** xy is the cell of one of the first k letters of the word. */
  predicate AtLetter(xybase: int, word: seq<int>, dir: Dir, k: int, xy: int)
    requires 0 <= k <= |word|
  {
    exists j :: 0 <= j < k && word[j] != STAR && CellOf(xybase, j, dir) == xy
  }

  /**
   * The worklist after the first k steps: only entries are taken out, at
   * most one per letter, and each one taken out is pending in the word's
   * own orientation at one of its letters' cells.
   */
  lemma {:induction false} WriteToAdj(n: Node, xybase: int, word: seq<int>, dir: Dir, k: int)
    requires |n.grid| == CELLS && |n.attr| == CELLS && Fits(xybase, |word|, dir) && 0 <= k <= |word|
    ensures multiset(WriteTo(n, xybase, word, dir, k).adj) <= multiset(n.adj)
    ensures |WriteTo(n, xybase, word, dir, k).adj| >= |n.adj| - Letters(word, k)
    ensures forall e :: e in multiset(n.adj) - multiset(WriteTo(n, xybase, word, dir, k).adj) ==>
      e.dir == dir && AtLetter(xybase, word, dir, k, e.xy)
    decreases k
  {
    if k > 0 {
      WriteToAdj(n, xybase, word, dir, k - 1);
      var m := WriteTo(n, xybase, word, dir, k - 1);
      var xy := CellOf(xybase, k - 1, dir);
      var r := WriteTo(n, xybase, word, dir, k);
      WriteCellAdj(m, xy, word[k - 1], dir);
      RemovedChain(multiset(n.adj), multiset(m.adj), multiset(r.adj));
      forall e | e in multiset(n.adj) - multiset(r.adj)
        ensures e.dir == dir && AtLetter(xybase, word, dir, k, e.xy)
      {
        if e in multiset(n.adj) - multiset(m.adj) {
          var j :| 0 <= j < k - 1 && word[j] != STAR && CellOf(xybase, j, dir) == e.xy;
          assert 0 <= j < k;
        } else {
          assert word[k - 1] != STAR && IsPending(e, dir, xy);
        }
      }
    }
  }

  // ---------------------------------------------------------------------
  // Counting lemmas

  /** New letters are letters. */
  lemma {:induction false} FreshBound(g: seq<int>, xybase: int, word: seq<int>, dir: Dir, k: int)
    requires |g| == CELLS && Fits(xybase, |word|, dir) && 0 <= k <= |word|
    ensures 0 <= FreshCount(g, xybase, word, dir, k) <= Letters(word, k)
    decreases k
  {
    if k > 0 {
      FreshBound(g, xybase, word, dir, k - 1);
    }
  }

  /** A new letter among the first k codes is counted. */
  lemma {:induction false} FreshCounted(g: seq<int>, xybase: int, word: seq<int>, dir: Dir, k: int, j: int)
    requires |g| == CELLS && Fits(xybase, |word|, dir) && 0 <= j < k <= |word|
    requires Fresh(g, xybase, word, dir, j)
    ensures FreshCount(g, xybase, word, dir, k) >= 1
    decreases k
  {
    if j < k - 1 {
      FreshCounted(g, xybase, word, dir, k - 1, j);
    } else {
      FreshBound(g, xybase, word, dir, k - 1);
    }
  }

  /** Among the first k codes of a delimited word, all but the leading star are letters. */
  lemma {:induction false} LettersPrefix(word: seq<int>, k: int)
    requires Delimited(word) && 1 <= k < |word|
    ensures Letters(word, k) == k - 1
    decreases k
  {
    if k > 1 {
      LettersPrefix(word, k - 1);
    }
  }

  /** A delimited word holds two stars and otherwise letters. */
  lemma LettersDelimited(word: seq<int>)
    requires Delimited(word)
    ensures Letters(word, |word|) == |word| - 2
  {
    LettersPrefix(word, |word| - 1);
  }

  // ---------------------------------------------------------------------
  // The whole write phase

  /**
   * The node place_hword / place_vword saves for an accepted word: the
   * copy of d with the word added to the set, the confirmed crossings
   * appended to the worklist, the word written, the hotspot moved to the
   * word's last cell when that lies further down, and under symmetry the
   * mirror anchor set (when none was pending) or cleared.
   */
  function Placed(lex: Lexicon, sym: bool, d: Node, xybase: int, w: int, dir: Dir): (r: Node)
    requires LexShape(lex) && NodeOk(lex, d) && 0 <= w < |lex.words| && PlaceOk(lex, sym, d, xybase, w, dir)
  {
    var word := lex.words[w];
    var n1 := WriteTo(Copied(lex, sym, d, xybase, w, dir), xybase, word, dir, |word|);
    var last := LastCell(xybase, |word|, dir);
    var n2 := if Level(last) > n1.lastlevel then n1.(lastlevel := Level(last)) else n1;
    if !sym then n2
    else if n2.symdir == NoSym then n2.(symdir := Sym(dir), symxy := Mirror(last), symlen := |word|)
    else n2.(symdir := NoSym)
  }

  /** The copy of d before the word is written: the word is marked placed and the confirmed crossings are queued. */
  function Copied(lex: Lexicon, sym: bool, d: Node, xybase: int, w: int, dir: Dir): (n: Node)
    requires LexShape(lex) && NodeOk(lex, d) && 0 <= w < |lex.words| && PlaceOk(lex, sym, d, xybase, w, dir)
  {
    d.(words := d.words + {w}, numword := d.numword + 1, adj := d.adj + NewEntries(lex, sym, d, xybase, w, dir))
  }

  /** The inner loop of the write phase: the first pending entry (dir, xy) is swap-removed. */
  method RemovePendingEntry(adj: seq<Adj>, dir: Dir, xy: int) returns (r: seq<Adj>)
    ensures r == RemovePending(adj, dir, xy)
  {
    var i := 0;
    while i < |adj|
      invariant 0 <= i <= |adj|
      invariant FindPending(adj, dir, xy, i) == FindPending(adj, dir, xy, 0)
    {
      if adj[i].dir == dir && adj[i].xy == xy {
        // there can be only one
        return adj[i := adj[|adj| - 1]][..|adj| - 1];
      }
      i := i + 1;
    }
    r := adj;
  }

  /** One iteration of the copy loop. */
  method WriteCode(n: Node, xy: int, c: int, dir: Dir) returns (r: Node)
    requires |n.grid| == CELLS && |n.attr| == CELLS && 0 <= xy < CELLS
    ensures r == WriteCell(n, xy, c, dir)
  {
    if c == STAR {
      return n.(grid := n.grid[xy := c]);
    }
    var adj := RemovePendingEntry(n.adj, dir, xy);
    r := WriteLetter(n, xy, c, dir, adj);
  }

  /** The copy loop of the write phase. */
  method WriteWord(n: Node, xybase: int, word: seq<int>, dir: Dir) returns (r: Node)
    requires |n.grid| == CELLS && |n.attr| == CELLS && Fits(xybase, |word|, dir)
    ensures r == WriteTo(n, xybase, word, dir, |word|)
  {
    r := n;
    var k := 0;
    while k < |word|
      invariant 0 <= k <= |word|
      invariant r == WriteTo(n, xybase, word, dir, k)
    {
      r := WriteCode(r, CellOf(xybase, k, dir), word[k], dir);
      k := k + 1;
    }
  }

  /**
   * place_hword (dir == H) and place_vword (dir == V): the check and, when
   * it passes, the node to save.
   */
  method PlaceWord(lex: Lexicon, sym: bool, d: Node, xybase: int, w: int, dir: Dir) returns (ok: bool, r: Node)
    requires LexShape(lex) && NodeOk(lex, d) && 0 <= w < |lex.words|
    ensures ok == PlaceOk(lex, sym, d, xybase, w, dir)
    ensures ok ==> r == Placed(lex, sym, d, xybase, w, dir)
  {
    var cf;
    ok, cf := CheckPlacement(lex, sym, d, xybase, w, dir);
    if !ok {
      return false, d;
    }
    var word := lex.words[w];
    r := d.(words := d.words + {w}, numword := d.numword + 1, adj := d.adj + cf);
    r := WriteWord(r, xybase, word, dir);
    var last := LastCell(xybase, |word|, dir);
    if Level(last) > r.lastlevel {
      r := r.(lastlevel := Level(last));
    }
    if sym {
      if r.symdir == NoSym {
        r := r.(symdir := Sym(dir), symxy := Mirror(last), symlen := |word|);
      } else {
        r := r.(symdir := NoSym);
      }
    }
  }

  // ---------------------------------------------------------------------
  // What the saved node holds

  /** The saved node holds the word's codes in its cells and leaves every other cell as it was. */
  lemma PlacedCells(lex: Lexicon, sym: bool, d: Node, xybase: int, w: int, dir: Dir)
    requires LexShape(lex) && NodeOk(lex, d) && 0 <= w < |lex.words| && PlaceOk(lex, sym, d, xybase, w, dir)
    ensures forall j :: 0 <= j < |lex.words[w]| ==>
      Placed(lex, sym, d, xybase, w, dir).grid[CellOf(xybase, j, dir)] == lex.words[w][j]
    ensures forall j :: 0 <= j < |lex.words[w]| ==>
      HintedAt(Placed(lex, sym, d, xybase, w, dir).attr, d, xybase, lex.words[w], dir, j)
    ensures forall xy :: 0 <= xy < CELLS && Off(xybase, |lex.words[w]|, dir, xy) ==>
      Placed(lex, sym, d, xybase, w, dir).grid[xy] == d.grid[xy] && Placed(lex, sym, d, xybase, w, dir).attr[xy] == d.attr[xy]
  {
    var n0, word := Copied(lex, sym, d, xybase, w, dir), lex.words[w];
    WriteToWord(n0, xybase, word, dir, |word|);
    WriteToAttr(n0, xybase, word, dir, |word|);
    WriteToOff(n0, xybase, word, dir, |word|);
    PlacedWritten(lex, sym, d, xybase, w, dir);
    var r := Placed(lex, sym, d, xybase, w, dir);
    forall j | 0 <= j < |word|
      ensures HintedAt(r.attr, d, xybase, word, dir, j)
    {
      assert HintedAt(r.attr, n0, xybase, word, dir, j);
    }
  }

  /**
   * numchar grows by the word's new letters and numchar + numconn by all
   * the word's letters (its length less the two stars).
   */
  lemma PlacedCounts(lex: Lexicon, sym: bool, d: Node, xybase: int, w: int, dir: Dir)
    requires LexShape(lex) && NodeOk(lex, d) && 0 <= w < |lex.words| && PlaceOk(lex, sym, d, xybase, w, dir)
    ensures Placed(lex, sym, d, xybase, w, dir).numchar == d.numchar + FreshCount(d.grid, xybase, lex.words[w], dir, |lex.words[w]|)
    ensures Placed(lex, sym, d, xybase, w, dir).numchar + Placed(lex, sym, d, xybase, w, dir).numconn ==
      d.numchar + d.numconn + |lex.words[w]| - 2
  {
    var n0, word := Copied(lex, sym, d, xybase, w, dir), lex.words[w];
    WriteToCounts(n0, xybase, word, dir, |word|);
    LettersDelimited(word);
  }

  /** The hash grows by the terms of the new letters, modulo 2^32. */
  lemma PlacedHash(lex: Lexicon, sym: bool, d: Node, xybase: int, w: int, dir: Dir)
    requires LexShape(lex) && NodeOk(lex, d) && 0 <= w < |lex.words| && PlaceOk(lex, sym, d, xybase, w, dir)
    ensures Placed(lex, sym, d, xybase, w, dir).hash == (d.hash + FreshHash(d.grid, xybase, lex.words[w], dir, |lex.words[w]|)) % HASHMOD
  {
    PlacedWritten(lex, sym, d, xybase, w, dir);
    WrittenHash(Copied(lex, sym, d, xybase, w, dir), xybase, lex.words[w], dir);
  }

  /** Writing a whole word adds the terms of its new letters to the hash, modulo 2^32. */
  lemma WrittenHash(n: Node, xybase: int, word: seq<int>, dir: Dir)
    requires |n.grid| == CELLS && |n.attr| == CELLS && Fits(xybase, |word|, dir) && 0 <= n.hash < HASHMOD
    ensures WriteTo(n, xybase, word, dir, |word|).hash == (n.hash + FreshHash(n.grid, xybase, word, dir, |word|)) % HASHMOD
  {
    WriteToHash(n, xybase, word, dir, |word|);
    FoldHashSum(n.hash, n.grid, xybase, word, dir, |word|);
  }

  /** The saved node's hash is the one the write phase leaves. */
  lemma PlacedWritten(lex: Lexicon, sym: bool, d: Node, xybase: int, w: int, dir: Dir)
    requires LexShape(lex) && NodeOk(lex, d) && 0 <= w < |lex.words| && PlaceOk(lex, sym, d, xybase, w, dir)
    ensures var n0 := Copied(lex, sym, d, xybase, w, dir);
      n0.hash == d.hash && n0.grid == d.grid && n0.attr == d.attr && Fits(xybase, |lex.words[w]|, dir) &&
      Placed(lex, sym, d, xybase, w, dir).hash == WriteTo(n0, xybase, lex.words[w], dir, |lex.words[w]|).hash
  {
  }

  /**
   * The saved worklist is the old one plus the confirmed crossings, less
   * at most one entry per letter of the word, each taken out being an
   * entry of the word's own orientation pending at one of its letters.
   */
  lemma PlacedWorklist(lex: Lexicon, sym: bool, d: Node, xybase: int, w: int, dir: Dir)
    requires LexShape(lex) && NodeOk(lex, d) && 0 <= w < |lex.words| && PlaceOk(lex, sym, d, xybase, w, dir)
    ensures multiset(Placed(lex, sym, d, xybase, w, dir).adj) <= multiset(d.adj + NewEntries(lex, sym, d, xybase, w, dir))
    ensures |Placed(lex, sym, d, xybase, w, dir).adj| >= |d.adj| + |NewEntries(lex, sym, d, xybase, w, dir)| - (|lex.words[w]| - 2)
    ensures forall e :: e in multiset(d.adj + NewEntries(lex, sym, d, xybase, w, dir)) - multiset(Placed(lex, sym, d, xybase, w, dir).adj) ==>
      e.dir == dir && AtLetter(xybase, lex.words[w], dir, |lex.words[w]|, e.xy)
  {
    var n0, word := Copied(lex, sym, d, xybase, w, dir), lex.words[w];
    WriteToAdj(n0, xybase, word, dir, |word|);
    LettersDelimited(word);
  }

  /**
   * The word joins the set, the hotspot moves down to the level of the
   * word's last cell, and under symmetry a pending mirror anchor is set
   * for the word when none was pending and cleared otherwise.
   */
  lemma PlacedAnchors(lex: Lexicon, sym: bool, d: Node, xybase: int, w: int, dir: Dir)
    requires LexShape(lex) && NodeOk(lex, d) && 0 <= w < |lex.words| && PlaceOk(lex, sym, d, xybase, w, dir)
    ensures var r := Placed(lex, sym, d, xybase, w, dir);
      r.words == d.words + {w} && r.numword == d.numword + 1 && w !in d.words && r.firstlevel == d.firstlevel
    ensures var r := Placed(lex, sym, d, xybase, w, dir); var last := LastCell(xybase, |lex.words[w]|, dir);
      r.lastlevel == (if Level(last) > d.lastlevel then Level(last) else d.lastlevel)
    ensures var r := Placed(lex, sym, d, xybase, w, dir); var last := LastCell(xybase, |lex.words[w]|, dir);
      (!sym ==> r.symdir == d.symdir && r.symxy == d.symxy && r.symlen == d.symlen) &&
      (sym && d.symdir == NoSym ==> r.symdir == Sym(dir) && r.symxy == Mirror(last) && r.symlen == |lex.words[w]|) &&
      (sym && d.symdir != NoSym ==> r.symdir == NoSym)
  {
  }

  /** The saved grid state is well formed and holds one word more. */
  lemma PlacedGrows(lex: Lexicon, sym: bool, d: Node, xybase: int, w: int, dir: Dir)
    requires LexShape(lex) && NodeOk(lex, d) && 0 <= w < |lex.words| && PlaceOk(lex, sym, d, xybase, w, dir)
    ensures NodeOk(lex, Placed(lex, sym, d, xybase, w, dir)) && Placed(lex, sym, d, xybase, w, dir).numword == d.numword + 1
  {
    PlacedOk(lex, sym, d, xybase, w, dir);
    PlacedAnchors(lex, sym, d, xybase, w, dir);
  }

  /** The saved node is a grid state as the engine keeps it. */
  lemma PlacedOk(lex: Lexicon, sym: bool, d: Node, xybase: int, w: int, dir: Dir)
    requires LexShape(lex) && NodeOk(lex, d) && 0 <= w < |lex.words| && PlaceOk(lex, sym, d, xybase, w, dir)
    ensures NodeOk(lex, Placed(lex, sym, d, xybase, w, dir))
  {
    var r, word := Placed(lex, sym, d, xybase, w, dir), lex.words[w];
    PlacedGridOk(lex, sym, d, xybase, w, dir);
    PlacedAttrOk(lex, sym, d, xybase, w, dir);
    PlacedWorklistOk(lex, sym, d, xybase, w, dir);
    PlacedCounts(lex, sym, d, xybase, w, dir);
    PlacedHash(lex, sym, d, xybase, w, dir);
    FreshBound(d.grid, xybase, word, dir, |word|);
    LettersDelimited(word);
    if d.numword == 0 {
      PlacedFirstLetter(lex, sym, d, xybase, w, dir);
    }
  }

  /** Every cell of the saved grid holds a code, and the border still holds stars. */
  lemma PlacedGridOk(lex: Lexicon, sym: bool, d: Node, xybase: int, w: int, dir: Dir)
    requires LexShape(lex) && NodeOk(lex, d) && 0 <= w < |lex.words| && PlaceOk(lex, sym, d, xybase, w, dir)
    ensures GridOk(Placed(lex, sym, d, xybase, w, dir).grid)
  {
    var r, word := Placed(lex, sym, d, xybase, w, dir), lex.words[w];
    PlacedCells(lex, sym, d, xybase, w, dir);
    forall xy | 0 <= xy < CELLS
      ensures IsCode(r.grid[xy]) && BorderStar(r.grid, xy)
    {
      assert BorderStar(d.grid, xy);
      if !Off(xybase, |word|, dir, xy) {
        var j :| 0 <= j < |word| && CellOf(xybase, j, dir) == xy;
        WordCode(lex, w, j);
        assert CodeOk(lex, d.grid, xybase, w, dir, j);
      }
    }
  }

  /** The border bits of the saved hints still mark the border. */
  lemma PlacedAttrOk(lex: Lexicon, sym: bool, d: Node, xybase: int, w: int, dir: Dir)
    requires LexShape(lex) && NodeOk(lex, d) && 0 <= w < |lex.words| && PlaceOk(lex, sym, d, xybase, w, dir)
    ensures AttrOk(Placed(lex, sym, d, xybase, w, dir).attr)
  {
    var n0, word := Copied(lex, sym, d, xybase, w, dir), lex.words[w];
    WriteToBorder(n0, xybase, word, dir, |word|);
  }

  /** The saved worklist fits its arrays and every entry names a link entry. */
  lemma PlacedWorklistOk(lex: Lexicon, sym: bool, d: Node, xybase: int, w: int, dir: Dir)
    requires LexShape(lex) && NodeOk(lex, d) && 0 <= w < |lex.words| && PlaceOk(lex, sym, d, xybase, w, dir)
    ensures |Placed(lex, sym, d, xybase, w, dir).adj| < ADJMAX
    ensures forall e :: e in Placed(lex, sym, d, xybase, w, dir).adj ==> 0 < e.l < |lex.linkdat|
  {
    var r, cf := Placed(lex, sym, d, xybase, w, dir), NewEntries(lex, sym, d, xybase, w, dir);
    PlacedWorklist(lex, sym, d, xybase, w, dir);
    SubMultiset(r.adj, d.adj + cf);
    NewEntriesLinked(lex, sym, d, xybase, w, dir);
  }

  /** A sub-multiset is no longer and holds no new element. */
  lemma SubMultiset(a: seq<Adj>, b: seq<Adj>)
    requires multiset(a) <= multiset(b)
    ensures |a| <= |b| && forall e :: e in a ==> e in b
  {
    assert multiset(b) == multiset(a) + (multiset(b) - multiset(a));
    forall e | e in a
      ensures e in b
    {
      assert e in multiset(a);
    }
  }

  /** Every confirmed crossing names a link entry other than the end marker. */
  lemma NewEntriesLinked(lex: Lexicon, sym: bool, d: Node, xybase: int, w: int, dir: Dir)
    requires LexShape(lex) && NodeOk(lex, d) && 0 <= w < |lex.words| && PlaceOk(lex, sym, d, xybase, w, dir)
    ensures forall e :: e in d.adj + NewEntries(lex, sym, d, xybase, w, dir) ==> 0 < e.l < |lex.linkdat|
  {
    var es, cf := CrossingsOf(lex, d, xybase, w, dir), NewEntries(lex, sym, d, xybase, w, dir);
    forall e | e in d.adj + cf
      ensures 0 < e.l < |lex.linkdat|
    {
      if e !in d.adj {
        var j :| 0 <= j < |cf| && cf[j] == e;
        assert FirstFit(lex, sym, d.grid, es[j].xy, es[j].l, es[j].dir) != 0;
      }
    }
  }

  /** The first word of a grid without letters brings a new letter. */
  lemma PlacedFirstLetter(lex: Lexicon, sym: bool, d: Node, xybase: int, w: int, dir: Dir)
    requires LexShape(lex) && NodeOk(lex, d) && 0 <= w < |lex.words| && PlaceOk(lex, sym, d, xybase, w, dir)
    requires NoLetters(d.grid)
    ensures FreshCount(d.grid, xybase, lex.words[w], dir, |lex.words[w]|) >= 1
  {
    var word := lex.words[w];
    WordCode(lex, w, 1);
    assert CodeOk(lex, d.grid, xybase, w, dir, 1);
    FreshCounted(d.grid, xybase, word, dir, |word|, 1);
  }
}
