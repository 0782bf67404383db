/**
 * The levels of the sweep of scan_grid: the three passes of one level, and
 * the whole sweep, level after level, with the attempts they make, the
 * grid they leave, and where the sweep stops; every attempt is sound.
 */
module Levels {
  import opened Consts
  import opened Links
  import opened Grid
  import opened Trace
  import opened Hotspot
  import opened Sweep
  import opened SweepLaws

  /** One level of the sweep: its attempts, the grid after it, and whether the sweep ends there. */
  datatype LevelRun = LevelRun(tries: seq<Attempt>, node: Node, stop: bool)

  /**
   * One level of the sweep: the tight pass (not under symmetry), then the
   * adjacent pass, then the fragment pass, each only when the passes before
   * placed nothing. A pass that places a grid, or pruning that abandons the
   * scan, ends the sweep; otherwise, when the level held no free cell, the
   * hotspot moves past it.
   */
  ghost function LevelSweep(lex: Lexicon, sym: bool, d: Node, level: int): (r: LevelRun)
    requires LexShape(lex) && NodeOk(lex, d) && 0 <= level <= GRIDMAX * 2 - 4 && d.firstlevel <= level
    ensures NodeOk(lex, r.node) && Pruned(d, r.node) && SweepTries(lex, sym, d, r.tries)
    ensures r.node.firstlevel == d.firstlevel || (!r.stop && r.node.firstlevel == level + 1 && Filled(r.node.grid, level))
  {
    var r := LevelFrom(lex, sym, d, level, TightPass);
    PrunedOk(lex, d, r.node);
    PrunedRefl(d);
    LevelSound(lex, sym, d, d, level, TightPass);
    LevelFilled(lex, sym, d, level, TightPass);
    r
  }

  /** How many passes of a level come after `pass`. */
  function PassesAfter(pass: Pass): nat
  {
    match pass
    case TightPass => 2
    case AdjacentPass => 1
    case FragmentPass => 0
  }

  /**
   * The passes of one level from `pass` on: a pass that places a grid ends
   * the level and the sweep; one that places nothing hands the grid to the
   * next pass, and the fragment pass, last, decides how the level ends.
   */
  ghost function LevelFrom(lex: Lexicon, sym: bool, d: Node, level: int, pass: Pass): (r: LevelRun)
    requires LexShape(lex) && NodeOk(lex, d) && 0 <= level <= GRIDMAX * 2 - 4 && d.firstlevel <= level
    ensures Pruned(d, r.node)
    ensures r.node.firstlevel == d.firstlevel || (!r.stop && r.node.firstlevel == level + 1)
    decreases PassesAfter(pass)
  {
    var start := LevelStart(level);
    if pass == FragmentPass then
      var f := FragWalk(lex, sym, d, start, false);
      if f.abort || f.hasplace > 0 then LevelRun(f.tries, f.node, true)
      else if f.hasfree then LevelRun(f.tries, f.node, false)
      else
        AdvancePruned(d, f.node, level + 1);
        LevelRun(f.tries, f.node.(firstlevel := level + 1), false)
    else
      var ts := if pass == TightPass then TightTries(lex, sym, d, level) else DiagTries(lex, sym, AdjacentPass, d, start);
      if Successes(lex, sym, ts) > 0 then
        PrunedRefl(d);
        LevelRun(ts, d, true)
      else
        var r := LevelFrom(lex, sym, d, level, if pass == TightPass then AdjacentPass else FragmentPass);
        LevelRun(ts + r.tries, r.node, r.stop)
  }

  /** The sweep from a level on: its attempts and the grid it leaves. */
  datatype SweepOut = SweepOut(tries: seq<Attempt>, node: Node)

  /**
   * The sweep of scan_grid from level `level`: the levels up to the last
   * level with a letter and at most 2*GRIDMAX-4, one after the other, until
   * one ends the sweep. Every attempt it makes is one of its passes' own,
   * through a letter of d as pruned so far.
   */
  ghost function SweepRun(lex: Lexicon, sym: bool, d: Node, level: int): (r: SweepOut)
    requires LexShape(lex) && NodeOk(lex, d) && d.firstlevel <= level
    ensures NodeOk(lex, r.node) && Pruned(d, r.node)
    ensures SweepTries(lex, sym, d, r.tries)
    ensures r.node.firstlevel == d.firstlevel ||
      (level < r.node.firstlevel <= d.lastlevel + 1 && r.node.firstlevel <= GRIDMAX * 2 - 3 &&
       Filled(r.node.grid, r.node.firstlevel - 1))
    decreases GRIDMAX * 2 - 3 - level
  {
    if level > d.lastlevel || level > GRIDMAX * 2 - 4 then
      PrunedRefl(d);
      SweepOut([], d)
    else
      var s := LevelSweep(lex, sym, d, level);
      if s.stop then SweepOut(s.tries, s.node)
      else
        var rest := SweepRun(lex, sym, s.node, level + 1);
        PrunedTrans(d, s.node, rest.node);
        SweepTriesPruned(lex, sym, d, s.node, rest.tries);
        SweepTriesAppend(lex, sym, d, s.tries, rest.tries);
        if s.node.firstlevel == level + 1 && rest.node.firstlevel == level + 1 then
          FilledPruned(s.node, rest.node, level);
          SweepOut(s.tries + rest.tries, rest.node)
        else
          SweepOut(s.tries + rest.tries, rest.node)
  }

  /** The passes of a level from `pass` on try only their own attempts. */
  lemma {:induction false} LevelSound(lex: Lexicon, sym: bool, d0: Node, d: Node, level: int, pass: Pass)
    requires LexShape(lex) && NodeOk(lex, d) && Pruned(d0, d) && 0 <= level <= GRIDMAX * 2 - 4 && d.firstlevel <= level
    ensures SweepTries(lex, sym, d0, LevelFrom(lex, sym, d, level, pass).tries)
    decreases PassesAfter(pass)
  {
    var start := LevelStart(level);
    if pass == FragmentPass {
      FragWalkSound(lex, sym, d0, d, start, false);
    } else {
      var ts := if pass == TightPass then TightTries(lex, sym, d, level) else DiagTries(lex, sym, AdjacentPass, d, start);
      if pass == AdjacentPass {
        DiagSound(lex, sym, AdjacentPass, d0, d, start);
      } else if !sym {
        DiagSound(lex, sym, TightPass, d0, d, start);
      }
      if Successes(lex, sym, ts) == 0 {
        var next := if pass == TightPass then AdjacentPass else FragmentPass;
        LevelSound(lex, sym, d0, d, level, next);
        SweepTriesAppend(lex, sym, d0, ts, LevelFrom(lex, sym, d, level, next).tries);
      }
    }
  }

  /** The passes of a level from `pass` on move the hotspot past the level only when they leave it filled. */
  lemma {:induction false} LevelFilled(lex: Lexicon, sym: bool, d: Node, level: int, pass: Pass)
    requires LexShape(lex) && NodeOk(lex, d) && 0 <= level <= GRIDMAX * 2 - 4 && d.firstlevel <= level
    ensures var r := LevelFrom(lex, sym, d, level, pass);
      r.node.firstlevel == level + 1 ==> Filled(r.node.grid, level)
    decreases PassesAfter(pass)
  {
    if pass == FragmentPass {
      WalkBegins(level, d.grid);
      FragWalkFills(lex, sym, d, LevelStart(level), false, level);
    } else {
      var ts := if pass == TightPass then TightTries(lex, sym, d, level) else DiagTries(lex, sym, AdjacentPass, d, LevelStart(level));
      if Successes(lex, sym, ts) == 0 {
        LevelFilled(lex, sym, d, level, if pass == TightPass then AdjacentPass else FragmentPass);
      }
    }
  }

  // ---------------------------------------------------------------------
  // One level at a time

  /** One level of the sweep, pass by pass: which pass ends it, and what it leaves. */
  lemma LevelStep(lex: Lexicon, sym: bool, d: Node, level: int, done: seq<Attempt>)
    requires LexShape(lex) && NodeOk(lex, d) && 0 <= level <= GRIDMAX * 2 - 4 && d.firstlevel <= level
    ensures sym ==> done + TightTries(lex, sym, d, level) == done
    ensures var t, a, f, s := TightTries(lex, sym, d, level), DiagTries(lex, sym, AdjacentPass, d, LevelStart(level)),
        FragWalk(lex, sym, d, LevelStart(level), false), LevelSweep(lex, sym, d, level);
      (Successes(lex, sym, t) > 0 ==> done + s.tries == done + t && s.node == d && s.stop) &&
      (Successes(lex, sym, t) == 0 && Successes(lex, sym, a) > 0 ==> done + s.tries == (done + t) + a && s.node == d && s.stop) &&
      (Successes(lex, sym, t) == 0 && Successes(lex, sym, a) == 0 ==>
        done + s.tries == ((done + t) + a) + f.tries && s.stop == (f.abort || f.hasplace > 0) &&
        s.node == if s.stop || f.hasfree then f.node else f.node.(firstlevel := level + 1))
  {
    var t, a, f := TightTries(lex, sym, d, level), DiagTries(lex, sym, AdjacentPass, d, LevelStart(level)),
      FragWalk(lex, sym, d, LevelStart(level), false);
    var ra, rf := LevelFrom(lex, sym, d, level, AdjacentPass), LevelFrom(lex, sym, d, level, FragmentPass);
    assert done + [] == done;
    Concat3(done, t, a);
    Concat4(done, t, a, f.tries);
  }

  /**
   * Midway through the sweep: with `done` recorded so far, the sweep of
   * grid d from level `level` on brings the record to `goal` and leaves the
   * grid `fin` leaves.
   */
  ghost predicate SweepResumes(lex: Lexicon, sym: bool, d: Node, level: int,
                               done: seq<Attempt>, goal: seq<Attempt>, fin: SweepOut)
  {
    LexShape(lex) && NodeOk(lex, d) && d.firstlevel <= level &&
    goal == done + SweepRun(lex, sym, d, level).tries && SweepRun(lex, sym, d, level).node == fin.node
  }

  /** A sweep that has not run out of levels: one level, then the rest or the end. */
  lemma SweepResumesStep(lex: Lexicon, sym: bool, d: Node, level: int,
                         done: seq<Attempt>, goal: seq<Attempt>, fin: SweepOut)
    requires SweepResumes(lex, sym, d, level, done, goal, fin) && level <= d.lastlevel && level <= GRIDMAX * 2 - 4
    ensures var s := LevelSweep(lex, sym, d, level);
      (s.stop ==> goal == done + s.tries && fin.node == s.node) &&
      (!s.stop ==> s.node.lastlevel == d.lastlevel && SweepResumes(lex, sym, s.node, level + 1, done + s.tries, goal, fin))
  {
    var s := LevelSweep(lex, sym, d, level);
    Concat3(done, s.tries, SweepRun(lex, sym, s.node, level + 1).tries);
  }

  /** A sweep past its last level is over: nothing more is tried. */
  lemma SweepResumesEnd(lex: Lexicon, sym: bool, d: Node, level: int,
                        done: seq<Attempt>, goal: seq<Attempt>, fin: SweepOut)
    requires SweepResumes(lex, sym, d, level, done, goal, fin) && (level > d.lastlevel || level > GRIDMAX * 2 - 4)
    ensures goal == done && fin.node == d
  {
    assert done + [] == done;
  }
}
