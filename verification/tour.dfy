/**
 * What a board in the middle of the search means: the visited cells, read
 * in order of their indices, form a knight path, and the unvisited cells are
 * exactly the rest. A complete tour is such a path over every cell.
 */
module Tour {
  import opened Board

  /** Consecutive cells of `path` are a knight move apart. */
  predicate IsKnightPath(path: seq<Pos>) {
    forall k :: 0 <= k < |path| - 1 ==> IsKnightMove(path[k], path[k + 1])
  }

  /**
   * `b` records `path`: cell `path[k]` holds `k`, every other cell is
   * `Free`, and the unvisited count is what remains.
   */
  ghost predicate PathBoard(n: nat, b: Board, path: seq<Pos>) {
    && Shaped(n, b)
    && (forall k :: 0 <= k < |path| ==> OnBoard(n, path[k]) && At(n, b, path[k]) == k)
    && (forall c :: OnBoard(n, c) ==> At(n, b, c) == Free || (0 <= At(n, b, c) < |path| && path[At(n, b, c)] == c))
    && IsKnightPath(path)
    && FreeCount(b) == n * n - |path|
  }

  /**
   * A knight's tour of the `n` by `n` board from `start`: every cell exactly
   * once, each step a knight move, and back to the start when `roundTrip`.
   */
  predicate IsTour(n: nat, tour: seq<Pos>, start: Pos, roundTrip: bool) {
    && |tour| == n * n
    && |tour| >= 1
    && tour[0] == start
    && (forall k :: 0 <= k < |tour| ==> OnBoard(n, tour[k]))
    && (forall i, j :: 0 <= i < j < |tour| ==> tour[i] != tour[j])
    && IsKnightPath(tour)
    && (roundTrip ==> IsKnightMove(tour[|tour| - 1], tour[0]))
  }

  /** On a board that records `path`, a cell is safe exactly when it is on the board and off the path. */
  lemma SafeIffOffPath(n: nat, b: Board, path: seq<Pos>, c: Pos)
    requires PathBoard(n, b, path)
    ensures IsSafe(n, b, c) <==> OnBoard(n, c) && c !in path
  {
    if c in path {
      var k :| 0 <= k < |path| && path[k] == c;
      assert At(n, b, c) == k;
    }
  }

  /** The cells of a recorded path are pairwise distinct. */
  lemma PathDistinct(n: nat, b: Board, path: seq<Pos>)
    requires PathBoard(n, b, path)
    ensures forall i, j :: 0 <= i < j < |path| ==> path[i] != path[j]
  {
    forall i, j | 0 <= i < j < |path|
      ensures path[i] != path[j]
    {
      assert At(n, b, path[i]) == i;
      assert At(n, b, path[j]) == j;
    }
  }

  /** Marking a safe knight-move successor with the next index extends the recorded path by that cell. */
  lemma ExtendPath(n: nat, b: Board, path: seq<Pos>, q: Pos)
    requires PathBoard(n, b, path) && |path| >= 1
    requires IsSafe(n, b, q) && IsKnightMove(path[|path| - 1], q)
    ensures PathBoard(n, Mark(n, b, q, |path|), path + [q])
  {
    var b' := Mark(n, b, q, |path|);
    var path' := path + [q];
    MarkFreeCount(n, b, q, |path|);
    forall k | 0 <= k < |path'|
      ensures OnBoard(n, path'[k]) && At(n, b', path'[k]) == k
    {
      if k < |path| {
        assert path'[k] == path[k];
        assert At(n, b, path[k]) == k;
      }
    }
    forall c | OnBoard(n, c)
      ensures At(n, b', c) == Free || (0 <= At(n, b', c) < |path'| && path'[At(n, b', c)] == c)
    {
      if c != q {
        assert At(n, b', c) == At(n, b, c);
      }
    }
    assert IsKnightPath(path') by {
      forall k | 0 <= k < |path'| - 1
        ensures IsKnightMove(path'[k], path'[k + 1])
      {
        if k < |path| - 1 {
          assert path'[k] == path[k] && path'[k + 1] == path[k + 1];
        }
      }
    }
  }

  /** A recorded path over all `n * n` cells leaves no cell unvisited and is a tour. */
  lemma FullPathIsTour(n: nat, b: Board, path: seq<Pos>, roundTrip: bool)
    requires PathBoard(n, b, path) && |path| == n * n >= 1
    requires roundTrip ==> IsKnightMove(path[|path| - 1], path[0])
    ensures IsTour(n, path, path[0], roundTrip)
    ensures forall c :: OnBoard(n, c) ==> 0 <= At(n, b, c) < n * n && path[At(n, b, c)] == c
  {
    PathDistinct(n, b, path);
    NoFreeCell(n, b);
  }
}
