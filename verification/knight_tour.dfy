/**
 * The driver: a fresh board with the start cell marked 0, the search from
 * step 1, and on success the list of cell names indexed by visit order.
 * The outcome is `None` where the original returns `false`.
 */
module KnightTour {
  import opened Optional
  import opened Board
  import opened Tour
  import opened Search
  import opened Labels

  /** The text naming cell `c` on an `n` by `n` board. */
  function CellText(n: nat, c: Pos): string
    requires OnBoard(n, c) && n <= MaxFiles
  {
    LabelText(LabelOf(n, c))
  }

  /** `labels[k]` names `tour[k]`, for every `k`. */
  ghost predicate Names(n: nat, labels: seq<string>, tour: seq<Pos>) {
    && n <= MaxFiles
    && |labels| == |tour|
    && forall k :: 0 <= k < |tour| ==> OnBoard(n, tour[k]) && labels[k] == CellText(n, tour[k])
  }

  /** A fresh board with only the start cell visited, at step 0. */
  function StartBoard(n: nat, start: Pos): (b: Board)
    requires OnBoard(n, start)
    ensures PathBoard(n, b, [start])
  {
    var b := Mark(n, FreshBoard(n), start, 0);
    FreshFreeCount(n);
    MarkFreeCount(n, FreshBoard(n), start, 0);
    b
  }

  /** Cell `c` comes before column `j` of row `i` in the order the result loop visits cells. */
  predicate VisitedBefore(c: Pos, i: int, j: int) {
    c.y < i || (c.y == i && c.x < j)
  }

  /** The board the result loop reads holds index `k` at cell `tour[k]` and nothing else. */
  ghost predicate Indexes(n: nat, b: Board, tour: seq<Pos>) {
    && Shaped(n, b)
    && |tour| == n * n
    && (forall k :: 0 <= k < |tour| ==> OnBoard(n, tour[k]) && At(n, b, tour[k]) == k)
    && (forall c :: OnBoard(n, c) ==> 0 <= At(n, b, c) < n * n && tour[At(n, b, c)] == c)
  }

  /** Exactly the entries of the cells visited before `(i, j)` hold their names; the others are still empty. */
  ghost predicate FilledUpTo(n: nat, labels: seq<string>, tour: seq<Pos>, i: int, j: int) {
    && n <= MaxFiles
    && |labels| == |tour|
    && forall k :: 0 <= k < |tour| ==>
         OnBoard(n, tour[k]) && labels[k] == (if VisitedBefore(tour[k], i, j) then CellText(n, tour[k]) else "")
  }

  /** Storing the name of cell `(j, i)` at its index extends the filled part by that cell. */
  lemma FillStep(n: nat, b: Board, tour: seq<Pos>, labels: seq<string>, i: nat, j: nat)
    requires Indexes(n, b, tour) && FilledUpTo(n, labels, tour, i, j) && i < n && j < n
    ensures FilledUpTo(n, labels[At(n, b, Pos(j, i)) := CellText(n, Pos(j, i))], tour, i, j + 1)
  {
    var c := Pos(j, i);
    var t := At(n, b, c);
    var labels' := labels[t := CellText(n, c)];
    forall k | 0 <= k < |tour|
      ensures labels'[k] == (if VisitedBefore(tour[k], i, j + 1) then CellText(n, tour[k]) else "")
    {
      if k != t {
        assert At(n, b, tour[k]) == k;
      }
    }
  }

  /**
   * The result loop: row by row and, within a row, column by column, the
   * name of each cell is stored at the index the board holds for it.
   */
  method FormatTour(n: nat, b: Board, ghost tour: seq<Pos>) returns (labels: seq<string>)
    requires n <= MaxFiles && Indexes(n, b, tour)
    ensures Names(n, labels, tour)
  {
    labels := seq(n * n, _ => "");
    for i := 0 to n
      invariant FilledUpTo(n, labels, tour, i, 0)
    {
      for j := 0 to n
        invariant FilledUpTo(n, labels, tour, i, j)
      {
        FillStep(n, b, tour, labels, i, j);
        labels := labels[b[j][i] := CellText(n, Pos(j, i))];
      }
    }
  }

  /**
   * The solver for an `n` by `n` board from cell `(x, y)`: a list of names
   * exactly when some tour from that cell exists (closed when `roundTrip`),
   * and then the names of such a tour in visit order.
   */
  method SolveKnightTour(n: nat, x: int, y: int, roundTrip: bool) returns (r: Option<seq<string>>)
    requires OnBoard(n, Pos(x, y)) && n <= MaxFiles
    ensures r.Some? <==> exists tour :: IsTour(n, tour, Pos(x, y), roundTrip)
    ensures r.Some? ==> exists tour :: IsTour(n, tour, Pos(x, y), roundTrip) && Names(n, r.value, tour)
    ensures r.Some? ==> |r.value| == n * n && r.value[0] == CellText(n, Pos(x, y))
    ensures r.Some? ==> forall i, j :: 0 <= i < j < |r.value| ==> r.value[i] != r.value[j]
  {
    var start := Pos(x, y);
    var b := StartBoard(n, start);
    var found := Search.Search(n, roundTrip, start, start, 1, b);
    if !found.0 {
      forall tour | IsTour(n, tour, start, roundTrip)
        ensures false
      {
        assert tour[..1] == [start];
        TourPrefixCompletable(n, roundTrip, b, [start], tour);
        SearchExhaustive(n, roundTrip, start, start, 1, b);
      }
      return None;
    }
    SearchSound(n, roundTrip, start, start, 1, b, [start]);
    ghost var tour :| Completes(n, roundTrip, found.1, [start], tour);
    assert tour[0] == tour[..1][0] == start;
    FullPathIsTour(n, found.1, tour, roundTrip);
    var labels := FormatTour(n, found.1, tour);
    TourNamesDistinct(n, labels, tour, start, roundTrip);
    return Some(labels);
  }

  /** The names of a tour are pairwise distinct, and the first is the start cell's. */
  lemma TourNamesDistinct(n: nat, labels: seq<string>, tour: seq<Pos>, start: Pos, roundTrip: bool)
    requires IsTour(n, tour, start, roundTrip) && Names(n, labels, tour)
    ensures |labels| == n * n && labels[0] == CellText(n, start)
    ensures forall i, j :: 0 <= i < j < |labels| ==> labels[i] != labels[j]
  {
    forall i, j | 0 <= i < j < |labels|
      ensures labels[i] != labels[j]
    {
      LabelOfInjective(n, tour[i], tour[j]);
      LabelTextInjective(LabelOf(n, tour[i]), LabelOf(n, tour[j]));
    }
  }

  /** The names `s` and `t` read back, and step from one to the other by a knight offset (ranks count upwards). */
  predicate KnightStepNames(s: string, t: string) {
    && ParseLabel(s).Some?
    && ParseLabel(t).Some?
    && Pos(ParseLabel(t).value.file - ParseLabel(s).value.file, ParseLabel(s).value.rank - ParseLabel(t).value.rank) in Moves
  }

  /** Consecutive names of a tour are a knight move apart; with a round trip the last name leads back to the first. */
  lemma TourNamesKnightSteps(n: nat, labels: seq<string>, tour: seq<Pos>, start: Pos, roundTrip: bool)
    requires IsTour(n, tour, start, roundTrip) && Names(n, labels, tour)
    ensures forall k :: 0 <= k < |labels| - 1 ==> KnightStepNames(labels[k], labels[k + 1])
    ensures roundTrip ==> KnightStepNames(labels[|labels| - 1], labels[0])
  {
    forall k | 0 <= k < |labels| - 1
      ensures KnightStepNames(labels[k], labels[k + 1])
    {
      NamedStep(n, tour[k], tour[k + 1]);
    }
    if roundTrip {
      NamedStep(n, tour[|tour| - 1], tour[0]);
    }
  }

  lemma NamedStep(n: nat, c: Pos, d: Pos)
    requires OnBoard(n, c) && OnBoard(n, d) && n <= MaxFiles && IsKnightMove(c, d)
    ensures KnightStepNames(CellText(n, c), CellText(n, d))
  {
    ParseLabelText(LabelOf(n, c));
    ParseLabelText(LabelOf(n, d));
    KnightMoveLabels(n, c, d);
  }

  /** On a one-cell board the open tour is the start alone, named `A1`, and no closed tour exists. */
  lemma OneCellBoard()
    ensures IsTour(1, [Pos(0, 0)], Pos(0, 0), false)
    ensures Names(1, ["A1"], [Pos(0, 0)])
    ensures !exists tour :: IsTour(1, tour, Pos(0, 0), true)
  {
    assert Decimal(1) == "1";
    forall tour | IsTour(1, tour, Pos(0, 0), true)
      ensures false
    {
    }
  }
}
