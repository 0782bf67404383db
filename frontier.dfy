/**
 * The frontier of add_node: SCOREMAX buckets, each a list of grids kept
 * in descending order of score, then of hash, so that grids that may be
 * equal sit next to each other and are compared cell by cell.
 */
module Frontier {
  import opened Consts
  import opened Links
  import opened Grid


  /** The score of a grid as add_node evaluates it: connections per letter, as an exact rational. */
  function Score(n: Node): real
  {
    if n.numchar == 0 then 0.0 else n.numconn as real / n.numchar as real
  }

  /** The bucket a grid is filed in: its score scaled to 0..SCOREMAX-1, truncated and clamped. */
  function Bucket(n: Node): (i: int)
    ensures 0 <= i < SCOREMAX
  {
    var b := (Score(n) * (SCOREMAX - 1) as real).Floor;
    if b < 0 then 0 else if b >= SCOREMAX then SCOREMAX - 1 else b
  }

  /** a goes before b in a bucket: higher score first, then higher hash. */
  predicate Geq(a: Node, b: Node)
  {
    Score(a) > Score(b) || (Score(a) == Score(b) && a.hash >= b.hash)
  }

  /** Same score and same hash: the grids are only told apart by comparing them. */
  predicate SameKey(a: Node, b: Node)
  {
    Score(a) == Score(b) && a.hash == b.hash
  }

  predicate Sorted(s: seq<Node>)
  {
    forall j, k :: 0 <= j < k < |s| ==> Geq(s[j], s[k])
  }

  /** The list holds a grid equal to d (same score, same hash, same cells). */
  predicate HasTwin(s: seq<Node>, d: Node)
  {
    exists j :: 0 <= j < |s| && SameKey(d, s[j]) && s[j].grid == d.grid
  }

  /** A bucket as add_node keeps it: sorted, filed by score, every grid well formed. */
  predicate BucketOk(lex: Lexicon, s: seq<Node>, i: int)
  {
    Sorted(s) && forall x :: x in s ==> NodeOk(lex, x) && Bucket(x) == i
  }

  /** Every bucket of the frontier is a well-formed bucket of its band, of grids with at least k words. */
  predicate FrontierOk(lex: Lexicon, ss: seq<seq<Node>>, k: int)
  {
    |ss| == SCOREMAX && forall i {:trigger BandOk(lex, ss, k, i)} :: 0 <= i < |ss| ==> BandOk(lex, ss, k, i)
  }

  /** Bucket i of the frontier is a well-formed bucket of its band, of grids with at least k words. */
  predicate BandOk(lex: Lexicon, ss: seq<seq<Node>>, k: int, i: int)
    requires 0 <= i < |ss|
  {
    BucketOk(lex, ss[i], i) && Deep(ss[i], k)
  }

  /** Replacing one bucket by a well-formed bucket of the same band keeps the frontier well formed. */
  lemma FrontierUpdate(lex: Lexicon, ss: seq<seq<Node>>, k: int, b: int, t: seq<Node>)
    requires FrontierOk(lex, ss, k) && 0 <= b < |ss| && BucketOk(lex, t, b) && Deep(t, k)
    ensures FrontierOk(lex, ss[b := t], k)
  {
    forall i {:trigger BandOk(lex, ss[b := t], k, i)} | 0 <= i < |ss|
      ensures BandOk(lex, ss[b := t], k, i)
    {
      if i != b {
        assert BandOk(lex, ss, k, i);
      }
    }
  }

  /** A higher score never lands in a lower bucket. */
  lemma BucketMonotone(a: Node, b: Node)
    requires Score(a) <= Score(b)
    ensures Bucket(a) <= Bucket(b)
  {
    var x, y := Score(a) * (SCOREMAX - 1) as real, Score(b) * (SCOREMAX - 1) as real;
    assert x <= y;
  }

  lemma InsertSorted(s: seq<Node>, p: int, d: Node)
    requires Sorted(s) && 0 <= p <= |s|
    requires forall j :: 0 <= j < p ==> Geq(s[j], d)
    requires forall j :: p <= j < |s| ==> Geq(d, s[j])
    ensures Sorted(s[..p] + [d] + s[p..])
  {
    var t := s[..p] + [d] + s[p..];
    forall j, k | 0 <= j < k < |t|
      ensures Geq(t[j], t[k])
    {
      assert t[j] == if j < p then s[j] else if j == p then d else s[j - 1];
      assert t[k] == if k < p then s[k] else if k == p then d else s[k - 1];
    }
  }

  lemma InsertMultiset(s: seq<Node>, p: int, d: Node)
    requires 0 <= p <= |s|
    ensures multiset(s[..p] + [d] + s[p..]) == multiset(s) + multiset{d}
  {
    assert s == s[..p] + s[p..];
  }

  function IndexOf(s: seq<Node>, x: Node): (j: int)
    requires x in s
    ensures 0 <= j < |s| && s[j] == x
  {
    if s[0] == x then 0 else 1 + IndexOf(s[1..], x)
  }

  /** Total number of grids in a sequence of buckets. */
  function Total(ss: seq<seq<Node>>): nat
  {
    if ss == [] then 0 else Total(ss[..|ss| - 1]) + |ss[|ss| - 1]|
  }

  lemma {:induction false} TotalUpdate(ss: seq<seq<Node>>, b: int, t: seq<Node>)
    requires 0 <= b < |ss|
    ensures Total(ss[b := t]) == Total(ss) - |ss[b]| + |t|
    decreases |ss|
  {
    var n := |ss| - 1;
    assert ss[b := t][..n] == if b == n then ss[..n] else ss[..n][b := t];
    if b < n {
      TotalUpdate(ss[..n], b, t);
    }
  }

  /** The all-zero struct that holds the best grid before any is found. */
  function ZeroNode(): Node
  {
    Node({}, 0, 0, 0, 0, 0, 0, NoSym, 0, 0, [], seq(CELLS, _ => 0), seq(CELLS, _ => 0 as bv8))
  }


  /** The insertion point add_node reaches keeps the bucket sorted, and no equal grid was passed. */
  lemma Filed(lex: Lexicon, s: seq<Node>, p0: int, p: int, d: Node, b: int)
    requires BucketOk(lex, s, b) && NodeOk(lex, d) && Bucket(d) == b && 0 <= p0 <= p <= |s|
    requires forall j :: 0 <= j < p0 ==> !Geq(d, s[j])
    requires p0 < |s| ==> Geq(d, s[p0])
    requires forall j :: p0 <= j < p ==> SameKey(d, s[j]) && s[j].grid != d.grid
    requires p < |s| ==> !SameKey(d, s[p])
    ensures BucketOk(lex, s[..p] + [d] + s[p..], b)
    ensures multiset(s[..p] + [d] + s[p..]) == multiset(s) + multiset{d}
    ensures !HasTwin(s, d)
  {
    Passed(s, p0, p, d);
    InsertSorted(s, p, d);
    InsertMultiset(s, p, d);
  }

  /** Every grid after the insertion point goes strictly after d. */
  lemma Passed(s: seq<Node>, p0: int, p: int, d: Node)
    requires Sorted(s) && 0 <= p0 <= p <= |s|
    requires forall j :: 0 <= j < p0 ==> !Geq(d, s[j])
    requires p0 < |s| ==> Geq(d, s[p0])
    requires forall j :: p0 <= j < p ==> SameKey(d, s[j]) && s[j].grid != d.grid
    requires p < |s| ==> !SameKey(d, s[p])
    ensures forall j :: 0 <= j < p ==> Geq(s[j], d)
    ensures forall j :: p <= j < |s| ==> Geq(d, s[j]) && !SameKey(d, s[j])
    ensures !HasTwin(s, d)
  {
    if p < |s| {
      assert Geq(d, s[p]) && !SameKey(d, s[p]) by {
        if p > p0 {
          assert SameKey(d, s[p - 1]) && Geq(s[p - 1], s[p]);
        }
      }
      forall j | p < j < |s|
        ensures Geq(d, s[j]) && !SameKey(d, s[j])
      {
        assert Geq(s[p], s[j]);
      }
    }
  }

  /** Every grid of the list holds at least k words. */
  predicate Deep(s: seq<Node>, k: int)
  {
    forall x :: x in s ==> x.numword >= k
  }

  /** A grid in a higher bucket has a strictly higher score. */
  lemma BucketOrder(a: Node, b: Node)
    requires Bucket(a) > Bucket(b)
    ensures Score(a) > Score(b)
  {
    if Score(a) <= Score(b) {
      BucketMonotone(a, b);
      assert false;
    }
  }

  lemma SortedAppend(a: seq<Node>, b: seq<Node>)
    requires Sorted(a) && Sorted(b)
    requires forall x, y :: x in a && y in b ==> Geq(x, y)
    ensures Sorted(a + b)
  {
    var t := a + b;
    forall j, k | 0 <= j < k < |t|
      ensures Geq(t[j], t[k])
    {
      if k < |a| {
        assert t[j] == a[j] && t[k] == a[k];
      } else if j >= |a| {
        assert t[j] == b[j - |a|] && t[k] == b[k - |a|];
      } else {
        assert t[j] in a && t[k] in b;
      }
    }
  }

  /**
   * The buckets from the highest down to bucket i joined into one list, each
   * bucket in its own order: the list kick_ass gathers at the start of a round.
   */
  function Gathered(ss: seq<seq<Node>>, i: int): seq<Node>
    requires 0 <= i <= |ss|
    decreases |ss| - i
  {
    if i == |ss| then [] else Gathered(ss, i + 1) + ss[i]
  }

  /** Gathering from bucket i takes every grid of buckets i and above. */
  lemma {:induction false} GatheredSize(ss: seq<seq<Node>>, i: int)
    requires 0 <= i <= |ss|
    ensures |Gathered(ss, i)| + Total(ss[..i]) == Total(ss)
    decreases |ss| - i
  {
    if i == |ss| {
      assert ss[..i] == ss;
    } else {
      GatheredSize(ss, i + 1);
      assert ss[..i + 1][..i] == ss[..i];
    }
  }

  /**
   * Gathering well-formed buckets yields one list sorted by score, then by
   * hash, highest first, of well-formed grids from bucket i or above.
   */
  lemma {:induction false} GatheredOk(lex: Lexicon, ss: seq<seq<Node>>, i: int, k: int)
    requires 0 <= i <= |ss|
    requires forall b :: i <= b < |ss| ==> BucketOk(lex, ss[b], b) && Deep(ss[b], k)
    ensures Sorted(Gathered(ss, i)) && Deep(Gathered(ss, i), k)
    ensures forall x :: x in Gathered(ss, i) ==> NodeOk(lex, x) && Bucket(x) >= i
    decreases |ss| - i
  {
    if i < |ss| {
      GatheredOk(lex, ss, i + 1, k);
      var a, b := Gathered(ss, i + 1), ss[i];
      forall x, y | x in a && y in b
        ensures Geq(x, y)
      {
        BucketOrder(x, y);
      }
      SortedAppend(a, b);
    }
  }

  /** A non-empty frontier has a non-empty bucket. */
  lemma {:induction false} TotalNonEmpty(ss: seq<seq<Node>>)
    requires Total(ss) > 0
    ensures exists b :: 0 <= b < |ss| && |ss[b]| > 0
    decreases |ss|
  {
    var n := |ss| - 1;
    if |ss[n]| == 0 {
      TotalNonEmpty(ss[..n]);
      var b :| 0 <= b < n && |ss[..n][b]| > 0;
      assert ss[b] == ss[..n][b];
    }
  }

  /** A frontier of empty buckets is well formed whatever the word floor, and holds no grid. */
  lemma EmptyFrontier(lex: Lexicon, ss: seq<seq<Node>>, k: int)
    requires |ss| == SCOREMAX && forall i :: 0 <= i < |ss| ==> ss[i] == []
    ensures FrontierOk(lex, ss, k) && Total(ss) == 0
  {
    forall i {:trigger BandOk(lex, ss, k, i)} | 0 <= i < |ss|
      ensures BandOk(lex, ss, k, i)
    {
      assert ss[i] == [];
    }
    TotalZero(ss);
  }

  lemma {:induction false} TotalZero(ss: seq<seq<Node>>)
    requires forall i :: 0 <= i < |ss| ==> ss[i] == []
    ensures Total(ss) == 0
    decreases |ss|
  {
    if ss != [] {
      TotalZero(ss[..|ss| - 1]);
    }
  }

  /**
   * A grid holds each word at most once, so a frontier that holds a grid
   * of at least k words has k no larger than the word list.
   */
  lemma FrontierBound(lex: Lexicon, ss: seq<seq<Node>>, k: int)
    requires FrontierOk(lex, ss, k) && Total(ss) > 0
    ensures k <= |lex.words|
  {
    TotalNonEmpty(ss);
    var b :| 0 <= b < |ss| && |ss[b]| > 0;
    assert BandOk(lex, ss, k, b);
    var x := ss[b][0];
    assert x in ss[b];
    IndexSetBound(x.words, |lex.words|);
  }

  /** A set of indices below n has at most n members. */
  lemma {:induction false} IndexSetBound(s: set<int>, n: int)
    requires 0 <= n && forall w :: w in s ==> 0 <= w < n
    ensures |s| <= n
    decreases n
  {
    if n == 0 {
      assert forall w :: w !in s;
      assert s == {};
    } else {
      IndexSetBound(s - {n - 1}, n - 1);
    }
  }
}
