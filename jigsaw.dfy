/**
 * The program as main runs it: load the word list and build the link
 * table, set up the engine and the initial grid, place the starting words,
 * then run the rounds of kick_ass and hand back the best grid.
 */
module Jigsaw {
  import opened Consts
  import opened Words
  import opened Links
  import opened Grid
  import opened Frontier
  import opened Trace
  import opened Hotspot
  import opened Search

  /** The end of a run: the best grid when the rounds stop, or the load error that ended it first. */
  datatype RunResult = Finished(outcome: Outcome, rounds: nat, solution: Node) | LoadFailed(error: LoadError)

  /** The grid calloc gives main once the two passes have drawn the border: nothing placed. */
  function StartNode(grid: seq<int>, attr: seq<bv8>): Node
  {
    Node({}, 0, 0, 0, 0, 0, 0, NoSym, 0, 0, [], grid, attr)
  }

  /** The initial grid is a well-formed grid state without words. */
  lemma StartNodeOk(lex: Lexicon, grid: seq<int>, attr: seq<bv8>)
    requires |grid| == CELLS && |attr| == CELLS
    requires forall xy :: 0 <= xy < CELLS ==> grid[xy] == InitialCode(xy) && attr[xy] == InitialAttr(xy)
    ensures NodeOk(lex, StartNode(grid, attr))
  {
    forall xy {:trigger BorderStar(grid, xy)} | 0 <= xy < CELLS
      ensures BorderStar(grid, xy)
    {
    }
  }

  /**
   * main: a word list that does not load ends the run; otherwise the
   * starting words are tried on the initial grid, the grid goes to the
   * free list, and kick_ass runs until a round files nothing or the timer
   * expires. The best grid is empty or a grid without pending crossings
   * whose words are distinct words of the list.
   */
  method Run(lines: seq<seq<char>>, symmetrical: bool, nodemax: int, timeUp: nat -> bool) returns (r: RunResult)
    ensures r.LoadFailed? <==>
      !((forall j :: 0 <= j < |lines| ==> !TooLong(lines[j])) && |KeptWords(lines)| <= WORDMAX - 1)
    ensures r.Finished? ==>
      1 <= r.rounds <= |KeptWords(lines)| + 1 && (forall k :: 1 <= k < r.rounds ==> !timeUp(k)) &&
      (r.outcome == TimedOut <==> timeUp(r.rounds))
    ensures r.Finished? && r.solution != ZeroNode() ==>
      GridOk(r.solution.grid) && |r.solution.adj| == 0 && |r.solution.words| == r.solution.numword &&
      forall w :: w in r.solution.words ==> 0 <= w < |KeptWords(lines)|
  {
    var loaded := LoadWords(lines);
    if loaded.Failed? {
      return LoadFailed(loaded.error);
    }
    var lex := BuildLinks(loaded.words);
    LexOkShape(lex);
    var e := new Engine(lex, symmetrical, nodemax);
    var grid, attr := InitialGrid();
    StartNodeOk(lex, grid, attr);
    var d := e.SeedWords(StartNode(grid, attr));
    e.freenode := [d] + e.freenode;
    var outcome, rounds := e.KickAss(timeUp);
    return Finished(outcome, rounds, e.solution);
  }
}
