/**
 * The lexicon link table of load_words: every 1-, 2- and 3-code window of
 * every encoded word is entered, by head insertion, in the singly linked
 * list of its key. The list heads are links1/links2/links3 (flattened here:
 * key2(a,b) = a*32+b, key3(a,b,c) = (a*32+b)*32+c, the layout of the C
 * arrays) and the list bodies are linkdat, whose index 0 is the null link.
 * An entry stores the word and the negated position of the window in it, so
 * that a window found at cell xy anchors its word at xy + ofs*stride.
 */
module Links {
  import opened Consts
  import opened Words

  datatype Link = Link(next: int, w: int, ofs: int)

  /** The word list with its link table, read-only after the build. */
  datatype Lexicon = Lexicon(words: seq<seq<int>>, links1: seq<int>, links2: seq<int>,
                             links3: seq<int>, linkdat: seq<Link>)

  /** The word lists that LoadWords accepts. */
  predicate WordsOk(words: seq<seq<int>>)
  {
    |words| <= WORDMAX - 1 &&
    forall w :: 0 <= w < |words| ==> Delimited(words[w]) && 3 <= |words[w]| <= WORDLENMAX - 2
  }

  /** Every code of an encoded word indexes a table of 32 entries. */
  lemma CodeInRange(words: seq<seq<int>>, w: int, k: int)
    requires WordsOk(words) && 0 <= w < |words| && 0 <= k < |words[w]|
    ensures 1 <= words[w][k] <= STAR
  {
    if 0 < k < |words[w]| - 1 {
      assert IsLetter(words[w][k]);
    }
  }

  function Key2(a: int, b: int): int { a * 32 + b }
  function Key3(a: int, b: int, c: int): int { (a * 32 + b) * 32 + c }

  /** Distinct code pairs and triples have distinct keys. */
  lemma KeysInjective(a: int, b: int, c: int, a': int, b': int, c': int)
    requires 0 <= a < 32 && 0 <= b < 32 && 0 <= c < 32
    requires 0 <= a' < 32 && 0 <= b' < 32 && 0 <= c' < 32
    ensures Key2(a, b) == Key2(a', b') ==> a == a' && b == b'
    ensures Key3(a, b, c) == Key3(a', b', c') ==> a == a' && b == b' && c == c'
  {
  }

  /** Number of heads of the table of a kind (1, 2 or 3 codes). */
  function KeyCount(kind: int): int
  {
    if kind == 1 then 32 else if kind == 2 then 1024 else 32768
  }

  /**
   * A window of `kind` codes at position i of word w that the build enters:
   * 3- and 2-code windows may include the delimiters, a 1-code window is
   * always a letter.
   */
  predicate ValidWindow(words: seq<seq<int>>, w: int, i: int, kind: int)
  {
    0 <= w < |words| &&
    if kind == 1 then 1 <= i <= |words[w]| - 2
    else if kind == 2 then 0 <= i <= |words[w]| - 2
    else 0 <= i <= |words[w]| - 3
  }

  function WindowKey(words: seq<seq<int>>, w: int, i: int, kind: int): (k: int)
    requires WordsOk(words) && ValidWindow(words, w, i, kind)
    ensures 0 <= k < KeyCount(kind)
  {
    var p := words[w];
    CodeInRange(words, w, i);
    if kind == 1 then p[i]
    else
      CodeInRange(words, w, i + 1);
      if kind == 2 then Key2(p[i], p[i + 1])
      else
        CodeInRange(words, w, i + 2);
        Key3(p[i], p[i + 1], p[i + 2])
  }

  /** Every entry links to an older one, so every chain ends at the null link 0. */
  predicate LinksDescend(ld: seq<Link>)
  {
    |ld| >= 1 && forall e :: 1 <= e < |ld| ==> 0 <= ld[e].next < e
  }

  /** Every real entry names a word and a position inside it. */
  predicate EntriesOk(words: seq<seq<int>>, ld: seq<Link>)
  {
    LinksDescend(ld) &&
    forall e :: 1 <= e < |ld| ==> 0 <= ld[e].w < |words| && 0 <= -ld[e].ofs <= |words[ld[e].w]| - 2
  }

  /** Every entry of the chain starting at l is a window of `kind` codes with key `key`. */
  predicate ChainOk(words: seq<seq<int>>, ld: seq<Link>, l: int, kind: int, key: int)
    requires WordsOk(words) && LinksDescend(ld) && 0 <= l < |ld|
    decreases l
  {
    l == 0 ||
    (ValidWindow(words, ld[l].w, -ld[l].ofs, kind) &&
     WindowKey(words, ld[l].w, -ld[l].ofs, kind) == key &&
     ChainOk(words, ld, ld[l].next, kind, key))
  }

  /** The chain starting at l holds an entry for word w at offset ofs. */
  predicate InChain(ld: seq<Link>, l: int, w: int, ofs: int)
    requires LinksDescend(ld) && 0 <= l < |ld|
    decreases l
  {
    l != 0 && ((ld[l].w == w && ld[l].ofs == ofs) || InChain(ld, ld[l].next, w, ofs))
  }

  /** Entry e is on the chain starting at l. */
  predicate Reachable(ld: seq<Link>, l: int, e: int)
    requires LinksDescend(ld) && 0 <= l < |ld|
    decreases l
  {
    l != 0 && (l == e || Reachable(ld, ld[l].next, e))
  }

  /** Every entry reachable from l is a real entry no newer than l. */
  lemma {:induction false} ReachableBelow(ld: seq<Link>, l: int)
    requires LinksDescend(ld) && 0 <= l < |ld|
    ensures forall e :: Reachable(ld, l, e) ==> 1 <= e <= l
    decreases l
  {
    if l != 0 {
      ReachableBelow(ld, ld[l].next);
    }
  }

  /** Soundness of one table: each head starts a chain of windows of its own key. */
  predicate TableOk(words: seq<seq<int>>, ld: seq<Link>, heads: seq<int>, kind: int)
    requires WordsOk(words) && LinksDescend(ld)
  {
    |heads| == KeyCount(kind) &&
    forall k :: 0 <= k < |heads| ==> 0 <= heads[k] < |ld| && ChainOk(words, ld, heads[k], kind, k)
  }

  predicate Processed(w': int, i': int, i: int, wdone: int)
  {
    i' < i || (i' == i && w' >= wdone)
  }

  /** Completeness so far: every processed window is on the chain of its key. */
  ghost predicate Complete(words: seq<seq<int>>, ld: seq<Link>, heads: seq<int>, kind: int, i: int, wdone: int)
    requires WordsOk(words) && LinksDescend(ld) && TableOk(words, ld, heads, kind)
  {
    forall w', i' :: ValidWindow(words, w', i', kind) && Processed(w', i', i, wdone) ==>
      InChain(ld, heads[WindowKey(words, w', i', kind)], w', -i')
  }

  /** Completeness: every window of `kind` codes is on the chain of its key. */
  ghost predicate Indexed(words: seq<seq<int>>, ld: seq<Link>, heads: seq<int>, kind: int)
    requires WordsOk(words) && LinksDescend(ld) && TableOk(words, ld, heads, kind)
  {
    forall w, i :: ValidWindow(words, w, i, kind) ==>
      InChain(ld, heads[WindowKey(words, w, i, kind)], w, -i)
  }

  predicate LexOk(lex: Lexicon)
  {
    WordsOk(lex.words) && EntriesOk(lex.words, lex.linkdat) &&
    TableOk(lex.words, lex.linkdat, lex.links1, 1) &&
    TableOk(lex.words, lex.linkdat, lex.links2, 2) &&
    TableOk(lex.words, lex.linkdat, lex.links3, 3)
  }

  /** Every head of a table of n entries indexes the link table body. */
  predicate HeadsOk(ld: seq<Link>, heads: seq<int>, n: int)
  {
    |heads| == n && forall k :: 0 <= k < n ==> 0 <= heads[k] < |ld|
  }

  /** What the search relies on when it walks the tables: every index stays in range. */
  predicate LexShape(lex: Lexicon)
  {
    WordsOk(lex.words) && EntriesOk(lex.words, lex.linkdat) &&
    HeadsOk(lex.linkdat, lex.links1, 32) && HeadsOk(lex.linkdat, lex.links2, 1024) &&
    HeadsOk(lex.linkdat, lex.links3, 32768)
  }

  lemma LexOkShape(lex: Lexicon)
    requires LexOk(lex)
    ensures LexShape(lex)
  {
  }

  ghost predicate LexComplete(lex: Lexicon)
    requires LexOk(lex)
  {
    Indexed(lex.words, lex.linkdat, lex.links1, 1) &&
    Indexed(lex.words, lex.linkdat, lex.links2, 2) &&
    Indexed(lex.words, lex.linkdat, lex.links3, 3)
  }

  // ---------------------------------------------------------------------
  // The build

  /**
   * The link computation of load_words: rows i = 0, 1, ... of window
   * positions until a row enters nothing, and in each row the words from
   * the last to the first, entering the 3-, the 2- and the 1-code window.
   */
  method BuildLinks(words: seq<seq<int>>) returns (lex: Lexicon)
    requires WordsOk(words)
    ensures lex.words == words && LexOk(lex) && LexComplete(lex)
  {
    var links1 := new int[32](_ => 0);
    var links2 := new int[1024](_ => 0);
    var links3 := new int[32768](_ => 0);
    var ld: seq<Link> := [Link(0, 0, 0)];
    assert TableOk(words, ld, links1[..], 1);
    assert TableOk(words, ld, links2[..], 2);
    assert TableOk(words, ld, links3[..], 3);
    var i := 0;
    var done := false;
    while !done && i < WORDLENMAX
      invariant 0 <= i <= WORDLENMAX
      invariant EntriesOk(words, ld)
      invariant TableOk(words, ld, links1[..], 1) && Complete(words, ld, links1[..], 1, i, |words|)
      invariant TableOk(words, ld, links2[..], 2) && Complete(words, ld, links2[..], 2, i, |words|)
      invariant TableOk(words, ld, links3[..], 3) && Complete(words, ld, links3[..], 3, i, |words|)
      invariant done ==> forall w :: 0 <= w < |words| ==> |words[w]| - 2 < i
    {
      ld, done := EnterRow(words, i, links1, links2, links3, ld);
      NextRow(words, ld, links1[..], 1, i);
      NextRow(words, ld, links2[..], 2, i);
      NextRow(words, ld, links3[..], 3, i);
      i := i + 1;
    }
    AllRows(words, ld, links1[..], 1, i);
    AllRows(words, ld, links2[..], 2, i);
    AllRows(words, ld, links3[..], 3, i);
    lex := Lexicon(words, links1[..], links2[..], links3[..], ld);
  }

  /** One row i of the build: the windows at position i of every word, last word first. */
  method EnterRow(words: seq<seq<int>>, i: int, links1: array<int>, links2: array<int>, links3: array<int>,
                  ld0: seq<Link>) returns (ld: seq<Link>, done: bool)
    requires WordsOk(words) && 0 <= i && EntriesOk(words, ld0)
    requires links1 != links2 && links2 != links3 && links1 != links3
    requires TableOk(words, ld0, links1[..], 1) && Complete(words, ld0, links1[..], 1, i, |words|)
    requires TableOk(words, ld0, links2[..], 2) && Complete(words, ld0, links2[..], 2, i, |words|)
    requires TableOk(words, ld0, links3[..], 3) && Complete(words, ld0, links3[..], 3, i, |words|)
    modifies links1, links2, links3
    ensures EntriesOk(words, ld)
    ensures TableOk(words, ld, links1[..], 1) && Complete(words, ld, links1[..], 1, i, 0)
    ensures TableOk(words, ld, links2[..], 2) && Complete(words, ld, links2[..], 2, i, 0)
    ensures TableOk(words, ld, links3[..], 3) && Complete(words, ld, links3[..], 3, i, 0)
    ensures done <==> forall w :: 0 <= w < |words| ==> |words[w]| - 2 < i
  {
    ld := ld0;
    done := true;
    var w := |words| - 1;
    while w >= 0
      invariant -1 <= w < |words|
      invariant EntriesOk(words, ld)
      invariant TableOk(words, ld, links1[..], 1) && Complete(words, ld, links1[..], 1, i, w + 1)
      invariant TableOk(words, ld, links2[..], 2) && Complete(words, ld, links2[..], 2, i, w + 1)
      invariant TableOk(words, ld, links3[..], 3) && Complete(words, ld, links3[..], 3, i, w + 1)
      invariant done <==> forall w' :: w < w' < |words| ==> |words[w']| - 2 < i
    {
      // with delimiters, 3 codes
      var e3, e2, e1;
      ld, e3 := EnterWindow(words, links3, 3, links1, 1, w + 1, links2, 2, w + 1, ld, i, w);
      // with delimiters, 2 codes
      ld, e2 := EnterWindow(words, links2, 2, links1, 1, w + 1, links3, 3, w, ld, i, w);
      // without delimiters, 1 code
      ld, e1 := EnterWindow(words, links1, 1, links2, 2, w, links3, 3, w, ld, i, w);
      if e3 || e2 || e1 {
        done := false;
      }
      w := w - 1;
    }
  }

  /**
   * One window (w, i) of one kind: entered at the head of its chain when
   * the word has such a window, skipped otherwise. The two other tables,
   * whatever words they have completed, stay complete.
   */
  method EnterWindow(words: seq<seq<int>>, heads: array<int>, kind: int,
                     ta: array<int>, ka: int, wa: int, tb: array<int>, kb: int, wb: int,
                     ld0: seq<Link>, i: int, w: int) returns (ld: seq<Link>, entered: bool)
    requires WordsOk(words) && EntriesOk(words, ld0) && 0 <= w < |words| && 0 <= i
    requires heads != ta && heads != tb && kind in {1, 2, 3}
    requires TableOk(words, ld0, heads[..], kind) && Complete(words, ld0, heads[..], kind, i, w + 1)
    requires TableOk(words, ld0, ta[..], ka) && Complete(words, ld0, ta[..], ka, i, wa)
    requires TableOk(words, ld0, tb[..], kb) && Complete(words, ld0, tb[..], kb, i, wb)
    modifies heads
    ensures EntriesOk(words, ld)
    ensures TableOk(words, ld, heads[..], kind) && Complete(words, ld, heads[..], kind, i, w)
    ensures TableOk(words, ld, ta[..], ka) && Complete(words, ld, ta[..], ka, i, wa)
    ensures TableOk(words, ld, tb[..], kb) && Complete(words, ld, tb[..], kb, i, wb)
    ensures entered == ValidWindow(words, w, i, kind)
    ensures entered ==> |ld| == |ld0| + 1
    ensures !entered ==> ld == ld0
  {
    if ValidWindow(words, w, i, kind) {
      ld := Enter(words, heads, ld0, kind, i, w);
      TableExtend(words, ld0, ld[|ld0|], ta[..], ka, i, wa);
      TableExtend(words, ld0, ld[|ld0|], tb[..], kb, i, wb);
      entered := true;
    } else {
      ld := ld0;
      SkipWindow(words, ld, heads[..], kind, i, w);
      entered := false;
    }
  }

  /** Head insertion of window (w, i) into the table `heads` of its kind. */
  method Enter(words: seq<seq<int>>, heads: array<int>, ld0: seq<Link>, kind: int, i: int, w: int)
    returns (ld: seq<Link>)
    requires WordsOk(words) && EntriesOk(words, ld0) && ValidWindow(words, w, i, kind)
    requires TableOk(words, ld0, heads[..], kind) && Complete(words, ld0, heads[..], kind, i, w + 1)
    modifies heads
    ensures ld == ld0 + [Link(old(heads[WindowKey(words, w, i, kind)]), w, -i)]
    ensures EntriesOk(words, ld) && TableOk(words, ld, heads[..], kind) && Complete(words, ld, heads[..], kind, i, w)
  {
    ghost var h := heads[..];
    var k := WindowKey(words, w, i, kind);
    ld := ld0 + [Link(heads[k], w, -i)];
    heads[k] := |ld0|;
    assert heads[..] == h[k := |ld0|];
    TableInsert(words, ld0, h, kind, i, w);
  }

  // ---------------------------------------------------------------------
  // Lemmas of the build

  lemma {:induction false} ChainOkExtend(words: seq<seq<int>>, ld: seq<Link>, x: Link, l: int, kind: int, key: int)
    requires WordsOk(words) && LinksDescend(ld) && LinksDescend(ld + [x]) && 0 <= l < |ld|
    ensures ChainOk(words, ld + [x], l, kind, key) == ChainOk(words, ld, l, kind, key)
    decreases l
  {
    if l != 0 {
      ChainOkExtend(words, ld, x, ld[l].next, kind, key);
    }
  }

  lemma {:induction false} InChainExtend(ld: seq<Link>, x: Link, l: int, w: int, ofs: int)
    requires LinksDescend(ld) && LinksDescend(ld + [x]) && 0 <= l < |ld|
    ensures InChain(ld + [x], l, w, ofs) == InChain(ld, l, w, ofs)
    decreases l
  {
    if l != 0 {
      InChainExtend(ld, x, ld[l].next, w, ofs);
    }
  }

  /** Appending an entry leaves a table whose heads are older untouched. */
  lemma TableExtend(words: seq<seq<int>>, ld: seq<Link>, x: Link, heads: seq<int>, kind: int, i: int, wdone: int)
    requires WordsOk(words) && LinksDescend(ld) && LinksDescend(ld + [x])
    requires TableOk(words, ld, heads, kind) && Complete(words, ld, heads, kind, i, wdone)
    ensures TableOk(words, ld + [x], heads, kind) && Complete(words, ld + [x], heads, kind, i, wdone)
  {
    forall k | 0 <= k < |heads|
      ensures ChainOk(words, ld + [x], heads[k], kind, k)
    {
      ChainOkExtend(words, ld, x, heads[k], kind, k);
    }
    forall w', i' | ValidWindow(words, w', i', kind) && Processed(w', i', i, wdone)
      ensures InChain(ld + [x], heads[WindowKey(words, w', i', kind)], w', -i')
    {
      InChainExtend(ld, x, heads[WindowKey(words, w', i', kind)], w', -i');
    }
  }

  /** Head insertion of window (w, i) keeps the table sound and completes it by that window. */
  lemma TableInsert(words: seq<seq<int>>, ld: seq<Link>, heads: seq<int>, kind: int, i: int, w: int)
    requires WordsOk(words) && EntriesOk(words, ld)
    requires TableOk(words, ld, heads, kind) && Complete(words, ld, heads, kind, i, w + 1)
    requires ValidWindow(words, w, i, kind)
    ensures var k := WindowKey(words, w, i, kind);
            var ld' := ld + [Link(heads[k], w, -i)];
            var heads' := heads[k := |ld|];
            EntriesOk(words, ld') && TableOk(words, ld', heads', kind) &&
            Complete(words, ld', heads', kind, i, w)
  {
    var k := WindowKey(words, w, i, kind);
    var x := Link(heads[k], w, -i);
    var ld' := ld + [x];
    var heads' := heads[k := |ld|];
    assert EntriesOk(words, ld');
    forall k' | 0 <= k' < |heads'|
      ensures 0 <= heads'[k'] < |ld'| && ChainOk(words, ld', heads'[k'], kind, k')
    {
      ChainOkExtend(words, ld, x, heads[k'], kind, k');
    }
    forall w', i' | ValidWindow(words, w', i', kind) && Processed(w', i', i, w)
      ensures InChain(ld', heads'[WindowKey(words, w', i', kind)], w', -i')
    {
      var k' := WindowKey(words, w', i', kind);
      if w' == w && i' == i {
      } else {
        assert Processed(w', i', i, w + 1);
        InChainExtend(ld, x, heads[k'], w', -i');
      }
    }
  }

  /** A window that does not exist completes the table trivially. */
  lemma SkipWindow(words: seq<seq<int>>, ld: seq<Link>, heads: seq<int>, kind: int, i: int, w: int)
    requires WordsOk(words) && LinksDescend(ld)
    requires TableOk(words, ld, heads, kind) && Complete(words, ld, heads, kind, i, w + 1)
    requires !ValidWindow(words, w, i, kind)
    ensures Complete(words, ld, heads, kind, i, w)
  {
    forall w', i' | ValidWindow(words, w', i', kind) && Processed(w', i', i, w)
      ensures InChain(ld, heads[WindowKey(words, w', i', kind)], w', -i')
    {
      assert Processed(w', i', i, w + 1);
    }
  }

  lemma NextRow(words: seq<seq<int>>, ld: seq<Link>, heads: seq<int>, kind: int, i: int)
    requires WordsOk(words) && LinksDescend(ld)
    requires TableOk(words, ld, heads, kind) && Complete(words, ld, heads, kind, i, 0)
    ensures Complete(words, ld, heads, kind, i + 1, |words|)
  {
    forall w', i' | ValidWindow(words, w', i', kind) && Processed(w', i', i + 1, |words|)
      ensures InChain(ld, heads[WindowKey(words, w', i', kind)], w', -i')
    {
      assert Processed(w', i', i, 0);
    }
  }

  /** When the row loop stops, every row that holds a window has been processed. */
  lemma AllRows(words: seq<seq<int>>, ld: seq<Link>, heads: seq<int>, kind: int, i: int)
    requires WordsOk(words) && LinksDescend(ld)
    requires TableOk(words, ld, heads, kind) && Complete(words, ld, heads, kind, i, |words|)
    requires i == WORDLENMAX || forall w :: 0 <= w < |words| ==> |words[w]| - 2 < i
    ensures Indexed(words, ld, heads, kind)
  {
    forall w', i' | ValidWindow(words, w', i', kind)
      ensures InChain(ld, heads[WindowKey(words, w', i', kind)], w', -i')
    {
      assert Processed(w', i', i, |words|);
    }
  }

  // ---------------------------------------------------------------------
  // Soundness of the built table, as the placement code relies on it

  lemma {:induction false} ChainSound(words: seq<seq<int>>, ld: seq<Link>, l: int, kind: int, key: int, e: int)
    requires WordsOk(words) && LinksDescend(ld) && 0 <= l < |ld|
    requires ChainOk(words, ld, l, kind, key) && Reachable(ld, l, e)
    ensures 1 <= e < |ld|
    ensures ValidWindow(words, ld[e].w, -ld[e].ofs, kind) && WindowKey(words, ld[e].w, -ld[e].ofs, kind) == key
    decreases l
  {
    if l != e {
      ChainSound(words, ld, ld[l].next, kind, key, e);
    }
  }

  /** Every entry reachable from links3[a][b][c] is a window a, b, c of its word. */
  lemma Links3Sound(lex: Lexicon, a: int, b: int, c: int, e: int)
    requires LexOk(lex) && 0 <= a < 32 && 0 <= b < 32 && 0 <= c < 32
    requires Reachable(lex.linkdat, lex.links3[Key3(a, b, c)], e)
    ensures 1 <= e < |lex.linkdat|
    ensures var i, p := -lex.linkdat[e].ofs, lex.words[lex.linkdat[e].w];
            0 <= i <= |p| - 3 && p[i] == a && p[i + 1] == b && p[i + 2] == c
  {
    ChainSound(lex.words, lex.linkdat, lex.links3[Key3(a, b, c)], 3, Key3(a, b, c), e);
    var i, w := -lex.linkdat[e].ofs, lex.linkdat[e].w;
    var p := lex.words[w];
    CodeInRange(lex.words, w, i);
    CodeInRange(lex.words, w, i + 1);
    CodeInRange(lex.words, w, i + 2);
    KeysInjective(p[i], p[i + 1], p[i + 2], a, b, c);
  }

  /** Every entry reachable from links2[a][b] is a window a, b of its word. */
  lemma Links2Sound(lex: Lexicon, a: int, b: int, e: int)
    requires LexOk(lex) && 0 <= a < 32 && 0 <= b < 32
    requires Reachable(lex.linkdat, lex.links2[Key2(a, b)], e)
    ensures 1 <= e < |lex.linkdat|
    ensures var i, p := -lex.linkdat[e].ofs, lex.words[lex.linkdat[e].w];
            0 <= i <= |p| - 2 && p[i] == a && p[i + 1] == b
  {
    ChainSound(lex.words, lex.linkdat, lex.links2[Key2(a, b)], 2, Key2(a, b), e);
    var i, w := -lex.linkdat[e].ofs, lex.linkdat[e].w;
    var p := lex.words[w];
    CodeInRange(lex.words, w, i);
    CodeInRange(lex.words, w, i + 1);
    KeysInjective(p[i], p[i + 1], 0, a, b, 0);
  }

  /** Every entry reachable from links1[c] is a letter c of its word, never a delimiter. */
  lemma Links1Sound(lex: Lexicon, c: int, e: int)
    requires LexOk(lex) && 0 <= c < 32
    requires Reachable(lex.linkdat, lex.links1[c], e)
    ensures 1 <= e < |lex.linkdat|
    ensures var i, p := -lex.linkdat[e].ofs, lex.words[lex.linkdat[e].w];
            1 <= i <= |p| - 2 && p[i] == c && IsLetter(c)
  {
    ChainSound(lex.words, lex.linkdat, lex.links1[c], 1, c, e);
  }
}
