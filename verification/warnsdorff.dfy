/**
 * Warnsdorff's rule: the candidate next cells of the search, each with its
 * onward degree, ordered so that the fewest onward moves come first and
 * ties keep the declared order of the knight offsets (a stable sort).
 *
 * The functions the search calls carry only the facts the search itself
 * needs; what the candidate list contains and how it is ordered is stated
 * by the lemmas next to them.
 */
module Warnsdorff {
  import opened Board

  /** A reachable next cell and its degree, measured before any candidate is marked. */
  datatype Candidate = Candidate(pos: Pos, degree: nat)

  /** The position in `Moves` of the offset that takes `p` to the candidate. */
  function Rank(p: Pos, c: Candidate): nat {
    MoveIndex(Diff(p, c.pos))
  }

  /** `Rank` from `p`, as a key for the ordering predicates. */
  function RankFrom(p: Pos): Candidate -> nat {
    c => Rank(p, c)
  }

  /** The keys strictly increase along `cs`. */
  predicate IncreasingBy(key: Candidate -> nat, cs: seq<Candidate>) {
    forall i, j :: 0 <= i < j < |cs| ==> key(cs[i]) < key(cs[j])
  }

  /** `a` comes first: smaller degree, or equal degree and smaller key. */
  predicate Precedes(key: Candidate -> nat, a: Candidate, b: Candidate) {
    a.degree < b.degree || (a.degree == b.degree && key(a) < key(b))
  }

  /** Ascending by degree, ties broken by ascending key. */
  predicate OrderedBy(key: Candidate -> nat, cs: seq<Candidate>) {
    forall i, j :: 0 <= i < j < |cs| ==> Precedes(key, cs[i], cs[j])
  }

  /** Candidates appear in the declared order of their offsets. */
  predicate InOffsetOrder(p: Pos, cs: seq<Candidate>) {
    IncreasingBy(RankFrom(p), cs)
  }

  predicate SortedByDegree(cs: seq<Candidate>) {
    forall i, j :: 0 <= i < j < |cs| ==> cs[i].degree <= cs[j].degree
  }

  /** Ascending by degree, ties in declared offset order. */
  predicate WarnsdorffOrdered(p: Pos, cs: seq<Candidate>) {
    OrderedBy(RankFrom(p), cs)
  }

  /** `c` is a move the search may take from `p`: a safe cell a knight move away, with its current degree. */
  predicate IsCandidateOf(n: nat, b: Board, p: Pos, c: Candidate)
    requires Shaped(n, b)
  {
    IsKnightMove(p, c.pos) && IsSafe(n, b, c.pos) && c.degree == Degree(n, b, c.pos)
  }

  /** The candidates reached through `Moves[k..]`, collected in offset order: one per safe offset. */
  function CandidatesFrom(n: nat, b: Board, p: Pos, k: nat): (r: seq<Candidate>)
    requires Shaped(n, b) && k <= |Moves|
    ensures |r| == DegreeFrom(n, b, p, k)
    decreases p, |Moves| - k
  {
    if k == |Moves| then []
    else
      var q := Add(p, Moves[k]);
      var rest := CandidatesFrom(n, b, p, k + 1);
      if IsSafe(n, b, q) then [Candidate(q, Degree(n, b, q))] + rest else rest
  }

  /** Only candidates are collected. */
  lemma {:induction false} CandidatesFromSound(n: nat, b: Board, p: Pos, k: nat)
    requires Shaped(n, b) && k <= |Moves|
    ensures forall c :: c in CandidatesFrom(n, b, p, k) ==> IsCandidateOf(n, b, p, c)
    decreases |Moves| - k
  {
    if k < |Moves| {
      CandidatesFromSound(n, b, p, k + 1);
      OffsetRank(p, k, 0);
    }
  }

  /** Every safe offset from `k` on contributes its candidate. */
  lemma {:induction false} CandidatesFromComplete(n: nat, b: Board, p: Pos, k: nat)
    requires Shaped(n, b) && k <= |Moves|
    ensures forall j :: k <= j < |Moves| && IsSafe(n, b, Add(p, Moves[j])) ==>
      Candidate(Add(p, Moves[j]), Degree(n, b, Add(p, Moves[j]))) in CandidatesFrom(n, b, p, k)
    decreases |Moves| - k
  {
    if k < |Moves| {
      var rest := CandidatesFrom(n, b, p, k + 1);
      CandidatesFromComplete(n, b, p, k + 1);
      var r := CandidatesFrom(n, b, p, k);
      forall j | k <= j < |Moves| && IsSafe(n, b, Add(p, Moves[j]))
        ensures Candidate(Add(p, Moves[j]), Degree(n, b, Add(p, Moves[j]))) in r
      {
        if j > k {
          assert Candidate(Add(p, Moves[j]), Degree(n, b, Add(p, Moves[j]))) in rest;
        }
      }
    }
  }

  /** A candidate collected from offset `k` on has rank at least `k`. */
  lemma {:induction false} CandidatesFromRanks(n: nat, b: Board, p: Pos, k: nat)
    requires Shaped(n, b) && k <= |Moves|
    ensures forall c :: c in CandidatesFrom(n, b, p, k) ==> k <= Rank(p, c)
    decreases |Moves| - k
  {
    if k < |Moves| {
      CandidatesFromRanks(n, b, p, k + 1);
      OffsetRank(p, k, Degree(n, b, Add(p, Moves[k])));
    }
  }

  /** The collected candidates keep the declared offset order. */
  lemma {:induction false} CandidatesFromOrdered(n: nat, b: Board, p: Pos, k: nat)
    requires Shaped(n, b) && k <= |Moves|
    ensures InOffsetOrder(p, CandidatesFrom(n, b, p, k))
    decreases |Moves| - k
  {
    if k < |Moves| {
      var q := Add(p, Moves[k]);
      var rest := CandidatesFrom(n, b, p, k + 1);
      CandidatesFromOrdered(n, b, p, k + 1);
      CandidatesFromRanks(n, b, p, k + 1);
      if IsSafe(n, b, q) {
        var c := Candidate(q, Degree(n, b, q));
        OffsetRank(p, k, c.degree);
        assert forall j :: 0 <= j < |rest| ==> rest[j] in rest;
        ConsIncreasing(RankFrom(p), c, rest);
      }
    }
  }

  /** The candidate reached through offset `k` has rank `k`. */
  lemma OffsetRank(p: Pos, k: nat, d: nat)
    requires k < |Moves|
    ensures IsKnightMove(p, Add(p, Moves[k]))
    ensures Rank(p, Candidate(Add(p, Moves[k]), d)) == k
  {
    assert Diff(p, Add(p, Moves[k])) == Moves[k];
    MoveIndexOfMove(k);
  }

  lemma ConsIncreasing(key: Candidate -> nat, x: Candidate, rest: seq<Candidate>)
    requires IncreasingBy(key, rest)
    requires forall j :: 0 <= j < |rest| ==> key(x) < key(rest[j])
    ensures IncreasingBy(key, [x] + rest)
  {
    var r := [x] + rest;
    forall i, j | 0 <= i < j < |r|
      ensures key(r[i]) < key(r[j])
    {
      assert r[j] == rest[j - 1];
      if i > 0 {
        assert r[i] == rest[i - 1];
      }
    }
  }

  /**
   * The candidate list of one step: the safe cells a knight move away, each
   * paired with its degree on the current board, in offset order.
   */
  function Candidates(n: nat, b: Board, p: Pos): (r: seq<Candidate>)
    requires Shaped(n, b)
    ensures |r| == Degree(n, b, p)
  {
    CandidatesFrom(n, b, p, 0)
  }

  /** The candidate list holds exactly the candidates: each safe knight-move cell, with its degree. */
  lemma CandidatesSpec(n: nat, b: Board, p: Pos)
    requires Shaped(n, b)
    ensures forall c :: c in Candidates(n, b, p) ==> IsCandidateOf(n, b, p, c)
    ensures forall q :: IsKnightMove(p, q) && IsSafe(n, b, q) ==> Candidate(q, Degree(n, b, q)) in Candidates(n, b, p)
  {
    CandidatesFromSound(n, b, p, 0);
    CandidatesFromComplete(n, b, p, 0);
    forall q | IsKnightMove(p, q)
      ensures q == Add(p, Moves[MoveIndex(Diff(p, q))])
    {
      MoveIndexFinds(Diff(p, q));
    }
  }

  /** The candidates are listed in the declared order of their offsets. */
  lemma CandidatesInOffsetOrder(n: nat, b: Board, p: Pos)
    requires Shaped(n, b)
    ensures InOffsetOrder(p, Candidates(n, b, p))
  {
    CandidatesFromOrdered(n, b, p, 0);
  }

  /** Inserts `c` before the first element whose degree is not smaller than its own. */
  function Insert(c: Candidate, cs: seq<Candidate>): (r: seq<Candidate>)
    ensures |r| == |cs| + 1
  {
    if cs == [] || c.degree <= cs[0].degree then [c] + cs
    else [cs[0]] + Insert(c, cs[1..])
  }

  /** Insertion adds `c` and keeps everything else. */
  lemma {:induction false} InsertPermutes(c: Candidate, cs: seq<Candidate>)
    ensures multiset(Insert(c, cs)) == multiset(cs) + multiset{c}
  {
    if cs != [] && c.degree > cs[0].degree {
      InsertPermutes(c, cs[1..]);
      assert cs == [cs[0]] + cs[1..];
    }
  }

  lemma InsertElements(c: Candidate, cs: seq<Candidate>)
    ensures forall i :: 0 <= i < |Insert(c, cs)| ==> Insert(c, cs)[i] == c || Insert(c, cs)[i] in cs
  {
    var r := Insert(c, cs);
    InsertPermutes(c, cs);
    forall i | 0 <= i < |r|
      ensures r[i] == c || r[i] in cs
    {
      assert r[i] in multiset(r);
    }
  }

  lemma {:induction false} InsertSorted(c: Candidate, cs: seq<Candidate>)
    requires SortedByDegree(cs)
    ensures SortedByDegree(Insert(c, cs))
  {
    if cs != [] && c.degree > cs[0].degree {
      var rest := Insert(c, cs[1..]);
      InsertSorted(c, cs[1..]);
      InsertElements(c, cs[1..]);
      var r := [cs[0]] + rest;
      forall i, j | 0 <= i < j < |r|
        ensures r[i].degree <= r[j].degree
      {
        assert r[j] == rest[j - 1];
        if i > 0 {
          assert r[i] == rest[i - 1];
        } else if rest[j - 1] != c {
          var k :| 0 <= k < |cs[1..]| && cs[1..][k] == rest[j - 1];
          assert cs[k + 1] == rest[j - 1];
        }
      }
    }
  }

  /** Stable insertion sort, ascending by degree. */
  function SortByDegree(cs: seq<Candidate>): (r: seq<Candidate>)
    ensures |r| == |cs|
  {
    if cs == [] then [] else Insert(cs[0], SortByDegree(cs[1..]))
  }

  /** The sort is a permutation. */
  lemma {:induction false} SortByDegreePermutes(cs: seq<Candidate>)
    ensures multiset(SortByDegree(cs)) == multiset(cs)
  {
    if cs != [] {
      SortByDegreePermutes(cs[1..]);
      InsertPermutes(cs[0], SortByDegree(cs[1..]));
      assert cs == [cs[0]] + cs[1..];
    }
  }

  /** The sort leaves the list ascending by degree. */
  lemma {:induction false} SortByDegreeSorted(cs: seq<Candidate>)
    ensures SortedByDegree(SortByDegree(cs))
  {
    if cs != [] {
      SortByDegreeSorted(cs[1..]);
      InsertSorted(cs[0], SortByDegree(cs[1..]));
    }
  }

  lemma ConsOrdered(key: Candidate -> nat, x: Candidate, rest: seq<Candidate>)
    requires OrderedBy(key, rest)
    requires forall j :: 0 <= j < |rest| ==> Precedes(key, x, rest[j])
    ensures OrderedBy(key, [x] + rest)
  {
    var r := [x] + rest;
    forall i, j | 0 <= i < j < |r|
      ensures Precedes(key, r[i], r[j])
    {
      assert r[j] == rest[j - 1];
      if i > 0 {
        assert r[i] == rest[i - 1];
      }
    }
  }

  lemma HeadPrecedesInsert(key: Candidate -> nat, c: Candidate, cs: seq<Candidate>, rest: seq<Candidate>)
    requires cs != [] && c.degree > cs[0].degree
    requires OrderedBy(key, cs)
    requires forall i :: 0 <= i < |rest| ==> rest[i] == c || rest[i] in cs[1..]
    ensures forall j :: 0 <= j < |rest| ==> Precedes(key, cs[0], rest[j])
  {
    forall j | 0 <= j < |rest|
      ensures Precedes(key, cs[0], rest[j])
    {
      if rest[j] != c {
        var k :| 0 <= k < |cs[1..]| && cs[1..][k] == rest[j];
        assert cs[k + 1] == rest[j];
      }
    }
  }

  lemma {:induction false} InsertKeepsOrder(key: Candidate -> nat, c: Candidate, cs: seq<Candidate>)
    requires OrderedBy(key, cs)
    requires forall i :: 0 <= i < |cs| ==> key(c) < key(cs[i])
    ensures OrderedBy(key, Insert(c, cs))
  {
    if cs == [] || c.degree <= cs[0].degree {
      ConsOrdered(key, c, cs);
    } else {
      var rest := Insert(c, cs[1..]);
      InsertKeepsOrder(key, c, cs[1..]);
      InsertElements(c, cs[1..]);
      HeadPrecedesInsert(key, c, cs, rest);
      ConsOrdered(key, cs[0], rest);
    }
  }

  /**
   * The sort is stable: applied to a list whose keys increase, it orders the
   * list by degree and, among equal degrees, by key.
   */
  lemma {:induction false} SortKeepsKeyOrderAmongTies(key: Candidate -> nat, cs: seq<Candidate>)
    requires IncreasingBy(key, cs)
    ensures OrderedBy(key, SortByDegree(cs))
  {
    if cs != [] {
      var tail := SortByDegree(cs[1..]);
      SortKeepsKeyOrderAmongTies(key, cs[1..]);
      SortByDegreePermutes(cs[1..]);
      forall i | 0 <= i < |tail|
        ensures key(cs[0]) < key(tail[i])
      {
        assert tail[i] in multiset(cs[1..]);
        var j :| 0 <= j < |cs[1..]| && cs[1..][j] == tail[i];
        assert cs[j + 1] == tail[i];
      }
      InsertKeepsOrder(key, cs[0], tail);
    }
  }

  /**
   * The moves one search step tries, in the order it tries them: the
   * candidate list sorted by degree. Every one of them is safe to enter.
   */
  function NextMoves(n: nat, b: Board, p: Pos): (r: seq<Candidate>)
    requires Shaped(n, b)
    ensures |r| == Degree(n, b, p)
    ensures forall i :: 0 <= i < |r| ==> IsSafe(n, b, r[i].pos)
  {
    var cs := Candidates(n, b, p);
    var r := SortByDegree(cs);
    CandidatesSpec(n, b, p);
    SortByDegreePermutes(cs);
    assert forall i :: 0 <= i < |r| ==> IsSafe(n, b, r[i].pos) by {
      forall i | 0 <= i < |r|
        ensures IsSafe(n, b, r[i].pos)
      {
        assert r[i] in multiset(cs);
        assert IsCandidateOf(n, b, p, r[i]);
      }
    }
    r
  }

  /**
   * The moves tried are exactly the safe cells a knight move away, each
   * with the degree it has on the board as it was before any of them was
   * marked.
   */
  lemma NextMovesSpec(n: nat, b: Board, p: Pos)
    requires Shaped(n, b)
    ensures forall c :: c in NextMoves(n, b, p) ==> IsCandidateOf(n, b, p, c)
    ensures forall q :: IsKnightMove(p, q) && IsSafe(n, b, q) ==> Candidate(q, Degree(n, b, q)) in NextMoves(n, b, p)
  {
    var cs := Candidates(n, b, p);
    var r := NextMoves(n, b, p);
    CandidatesSpec(n, b, p);
    SortByDegreePermutes(cs);
    assert forall c :: c in r <==> c in cs by {
      forall c ensures c in r <==> c in cs {
        assert c in r <==> c in multiset(r);
      }
    }
  }

  /**
   * Warnsdorff's order: fewest onward moves first, and among equal degrees
   * the declared order of the offsets.
   */
  lemma NextMovesOrdered(n: nat, b: Board, p: Pos)
    requires Shaped(n, b)
    ensures WarnsdorffOrdered(p, NextMoves(n, b, p))
  {
    CandidatesInOffsetOrder(n, b, p);
    SortKeepsKeyOrderAmongTies(RankFrom(p), Candidates(n, b, p));
  }
}
