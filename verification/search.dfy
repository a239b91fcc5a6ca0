/**
 * The backtracking search. Each step tries the Warnsdorff-ordered moves one
 * after another: mark the target with the step index, search on, and on
 * failure write `Free` back before the next move. When every cell is
 * visited the search succeeds, or, when a round trip is required, succeeds
 * only if the last cell is a knight move from the start.
 *
 * The board is threaded through as a value: `Search` returns whether a tour
 * was found together with the board as the mutations left it.
 */
module Search {
  import opened Board
  import opened Warnsdorff
  import opened Tour

  /** Whether one of the offsets, tried from index `k` on, takes `pos` exactly onto `first`. */
  function ReturnsFrom(pos: Pos, first: Pos, k: nat): (r: bool)
    requires k <= |Moves|
    ensures r <==> exists j :: k <= j < |Moves| && Add(pos, Moves[j]) == first
    decreases pos, |Moves| - k
  {
    if k == |Moves| then false
    else if Add(pos, Moves[k]) == first then true
    else ReturnsFrom(pos, first, k + 1)
  }

  /** The round-trip test: the recorded start is one knight move from the last cell. */
  function ReturnsToStart(pos: Pos, first: Pos): (r: bool)
    ensures r <==> IsKnightMove(pos, first)
  {
    ReturnsFromKnightMove(pos, first);
    ReturnsFrom(pos, first, 0)
  }

  /** Scanning the whole offset table finds `first` exactly when it is a knight move from `pos`. */
  lemma ReturnsFromKnightMove(pos: Pos, first: Pos)
    ensures ReturnsFrom(pos, first, 0) <==> IsKnightMove(pos, first)
  {
    if ReturnsFrom(pos, first, 0) {
      var j :| 0 <= j < |Moves| && Add(pos, Moves[j]) == first;
      assert Diff(pos, first) == Moves[j];
    } else {
      assert Add(pos, Diff(pos, first)) == first;
    }
  }

  /**
   * One call of the search at step `movei` from `pos`, with `first` the
   * cell the tour started on. On failure the board comes back unchanged.
   */
  function Search(n: nat, roundTrip: bool, first: Pos, pos: Pos, movei: nat, b: Board): (r: (bool, Board))
    requires Shaped(n, b) && 1 <= movei <= n * n
    ensures Shaped(n, r.1)
    ensures !r.0 ==> r.1 == b
    decreases n * n - movei, 1
  {
    if movei == n * n then
      (!roundTrip || ReturnsToStart(pos, first), b)
    else
      TryMoves(n, roundTrip, first, movei, b, NextMoves(n, b, pos))
  }

  /**
   * The loop over the ordered candidates: the first candidate whose
   * tentative mark leads to a tour wins; a candidate that does not is
   * unmarked before the next is tried.
   */
  function TryMoves(n: nat, roundTrip: bool, first: Pos, movei: nat, b: Board, moves: seq<Candidate>): (r: (bool, Board))
    requires Shaped(n, b) && 1 <= movei < n * n
    requires forall i :: 0 <= i < |moves| ==> IsSafe(n, b, moves[i].pos)
    ensures Shaped(n, r.1)
    ensures !r.0 ==> r.1 == b
    decreases n * n - movei, 0, |moves|
  {
    if moves == [] then (false, b)
    else
      var m := moves[0].pos;
      assert IsSafe(n, b, m);
      var attempt := Search(n, roundTrip, first, m, movei + 1, Mark(n, b, m, movei));
      if attempt.0 then (true, attempt.1)
      else
        MarkUndo(n, b, m, movei);
        TryMoves(n, roundTrip, first, movei, Mark(n, attempt.1, m, Free), moves[1..])
  }

  /**
   * The reference meaning of success, independent of the Warnsdorff order:
   * from step `movei` at `pos`, some sequence of safe knight moves visits
   * every remaining cell (and ends a knight move from `first` when a round
   * trip is required).
   */
  ghost predicate Completable(n: nat, roundTrip: bool, first: Pos, pos: Pos, movei: nat, b: Board)
    requires Shaped(n, b) && movei <= n * n
    decreases n * n - movei, 1
  {
    if movei == n * n then
      !roundTrip || IsKnightMove(pos, first)
    else
      CompletableVia(n, roundTrip, first, pos, movei, b, 0)
  }

  /** One of the offsets `Moves[k..]` leads from `pos` to a safe cell from which the rest can be completed. */
  ghost predicate CompletableVia(n: nat, roundTrip: bool, first: Pos, pos: Pos, movei: nat, b: Board, k: nat)
    requires Shaped(n, b) && movei < n * n && k <= |Moves|
    decreases n * n - movei, 0, |Moves| - k
  {
    && k < |Moves|
    && (|| (var q := Add(pos, Moves[k]);
            IsSafe(n, b, q) && Completable(n, roundTrip, first, q, movei + 1, Mark(n, b, q, movei)))
        || CompletableVia(n, roundTrip, first, pos, movei, b, k + 1))
  }

  lemma {:induction false} CompletableViaAt(n: nat, roundTrip: bool, first: Pos, pos: Pos, movei: nat, b: Board, k: nat, j: nat)
    requires Shaped(n, b) && movei < n * n && k <= j < |Moves|
    requires IsSafe(n, b, Add(pos, Moves[j]))
    requires Completable(n, roundTrip, first, Add(pos, Moves[j]), movei + 1, Mark(n, b, Add(pos, Moves[j]), movei))
    ensures CompletableVia(n, roundTrip, first, pos, movei, b, k)
    decreases j - k
  {
    if k < j {
      CompletableViaAt(n, roundTrip, first, pos, movei, b, k + 1, j);
    }
  }

  lemma {:induction false} CompletableViaWitness(n: nat, roundTrip: bool, first: Pos, pos: Pos, movei: nat, b: Board, k: nat)
    returns (j: nat)
    requires Shaped(n, b) && movei < n * n && k <= |Moves|
    requires CompletableVia(n, roundTrip, first, pos, movei, b, k)
    ensures k <= j < |Moves| && IsSafe(n, b, Add(pos, Moves[j]))
    ensures Completable(n, roundTrip, first, Add(pos, Moves[j]), movei + 1, Mark(n, b, Add(pos, Moves[j]), movei))
    decreases |Moves| - k
  {
    var q := Add(pos, Moves[k]);
    if IsSafe(n, b, q) && Completable(n, roundTrip, first, q, movei + 1, Mark(n, b, q, movei)) {
      j := k;
    } else {
      j := CompletableViaWitness(n, roundTrip, first, pos, movei, b, k + 1);
    }
  }

  /**
   * Before the last step, a position can be completed exactly when some
   * safe knight move leads to a position that can.
   */
  lemma CompletableStep(n: nat, roundTrip: bool, first: Pos, pos: Pos, movei: nat, b: Board, m: Pos)
    requires Shaped(n, b) && movei < n * n
    requires IsKnightMove(pos, m) && IsSafe(n, b, m)
    requires Completable(n, roundTrip, first, m, movei + 1, Mark(n, b, m, movei))
    ensures Completable(n, roundTrip, first, pos, movei, b)
  {
    MoveIndexFinds(Diff(pos, m));
    var j := MoveIndex(Diff(pos, m));
    assert Add(pos, Moves[j]) == m;
    CompletableViaAt(n, roundTrip, first, pos, movei, b, 0, j);
  }

  /** A position that can be completed before the last step has a safe knight move to one that can. */
  lemma CompletableNext(n: nat, roundTrip: bool, first: Pos, pos: Pos, movei: nat, b: Board) returns (m: Pos)
    requires Shaped(n, b) && movei < n * n
    requires Completable(n, roundTrip, first, pos, movei, b)
    ensures IsKnightMove(pos, m) && IsSafe(n, b, m)
    ensures Completable(n, roundTrip, first, m, movei + 1, Mark(n, b, m, movei))
  {
    var j := CompletableViaWitness(n, roundTrip, first, pos, movei, b, 0);
    m := Add(pos, Moves[j]);
    assert Diff(pos, m) == Moves[j];
  }

  /**
   * One turn of the candidate loop: the first move that succeeds decides the
   * result, board included; on failure the loop goes on with the rest on the
   * restored board.
   */
  lemma TryMovesUnfold(n: nat, roundTrip: bool, first: Pos, movei: nat, b: Board, moves: seq<Candidate>)
    requires Shaped(n, b) && 1 <= movei < n * n
    requires forall i :: 0 <= i < |moves| ==> IsSafe(n, b, moves[i].pos)
    requires moves != []
    ensures IsSafe(n, b, moves[0].pos)
    ensures TryMoves(n, roundTrip, first, movei, b, moves) ==
      (var a := Search(n, roundTrip, first, moves[0].pos, movei + 1, Mark(n, b, moves[0].pos, movei));
       if a.0 then a else TryMoves(n, roundTrip, first, movei, b, moves[1..]))
  {
    var m := moves[0].pos;
    assert IsSafe(n, b, m);
    MarkUndo(n, b, m, movei);
  }

  /** A search succeeds only from a position that can be completed. */
  lemma {:induction false} SearchOnlyIfCompletable(n: nat, roundTrip: bool, first: Pos, pos: Pos, movei: nat, b: Board)
    requires Shaped(n, b) && 1 <= movei <= n * n
    ensures Search(n, roundTrip, first, pos, movei, b).0 ==> Completable(n, roundTrip, first, pos, movei, b)
    decreases n * n - movei, 1
  {
    if movei < n * n {
      var moves := NextMoves(n, b, pos);
      NextMovesSpec(n, b, pos);
      forall i | 0 <= i < |moves|
        ensures IsSafe(n, b, moves[i].pos) && IsKnightMove(pos, moves[i].pos)
      {
        assert moves[i] in moves;
      }
      TryMovesOnlyIfCompletable(n, roundTrip, first, pos, movei, b, moves);
    }
  }

  lemma {:induction false} TryMovesOnlyIfCompletable(n: nat, roundTrip: bool, first: Pos, pos: Pos, movei: nat, b: Board, moves: seq<Candidate>)
    requires Shaped(n, b) && 1 <= movei < n * n
    requires forall i :: 0 <= i < |moves| ==> IsSafe(n, b, moves[i].pos) && IsKnightMove(pos, moves[i].pos)
    ensures TryMoves(n, roundTrip, first, movei, b, moves).0 ==> Completable(n, roundTrip, first, pos, movei, b)
    decreases n * n - movei, 0, |moves|, 1
  {
    if moves != [] {
      TryMovesUnfold(n, roundTrip, first, movei, b, moves);
      if Search(n, roundTrip, first, moves[0].pos, movei + 1, Mark(n, b, moves[0].pos, movei)).0 {
        FirstMoveOnlyIfCompletable(n, roundTrip, first, movei, b, moves[0].pos);
        CompletableStep(n, roundTrip, first, pos, movei, b, moves[0].pos);
      } else {
        TryMovesOnlyIfCompletable(n, roundTrip, first, pos, movei, b, moves[1..]);
      }
    }
  }

  lemma {:induction false} FirstMoveOnlyIfCompletable(n: nat, roundTrip: bool, first: Pos, movei: nat, b: Board, m: Pos)
    requires Shaped(n, b) && 1 <= movei < n * n
    requires IsSafe(n, b, m)
    requires Search(n, roundTrip, first, m, movei + 1, Mark(n, b, m, movei)).0
    ensures Completable(n, roundTrip, first, m, movei + 1, Mark(n, b, m, movei))
    decreases n * n - movei, 0, 0, 0
  {
    SearchOnlyIfCompletable(n, roundTrip, first, m, movei + 1, Mark(n, b, m, movei));
  }

  /** From a position that can be completed, the search succeeds. */
  lemma {:induction false} CompletableSearchSucceeds(n: nat, roundTrip: bool, first: Pos, pos: Pos, movei: nat, b: Board)
    requires Shaped(n, b) && 1 <= movei <= n * n
    requires Completable(n, roundTrip, first, pos, movei, b)
    ensures Search(n, roundTrip, first, pos, movei, b).0
    decreases n * n - movei, 1
  {
    if movei < n * n {
      var q := CompletableNext(n, roundTrip, first, pos, movei, b);
      var moves := NextMoves(n, b, pos);
      NextMovesSpec(n, b, pos);
      var c := Candidate(q, Degree(n, b, q));
      assert c in moves;
      var i :| 0 <= i < |moves| && moves[i] == c;
      TryMovesSucceedsAt(n, roundTrip, first, movei, b, moves, i);
    }
  }

  /** The candidate loop succeeds when the candidate at index `i` can be completed. */
  lemma {:induction false} TryMovesSucceedsAt(n: nat, roundTrip: bool, first: Pos, movei: nat, b: Board, moves: seq<Candidate>, i: nat)
    requires Shaped(n, b) && 1 <= movei < n * n
    requires forall j :: 0 <= j < |moves| ==> IsSafe(n, b, moves[j].pos)
    requires i < |moves| && IsSafe(n, b, moves[i].pos)
    requires Completable(n, roundTrip, first, moves[i].pos, movei + 1, Mark(n, b, moves[i].pos, movei))
    ensures TryMoves(n, roundTrip, first, movei, b, moves).0
    decreases n * n - movei, 0, |moves|, 1
  {
    if i == 0 {
      TryMovesSucceedsFirst(n, roundTrip, first, movei, b, moves);
    } else {
      assert moves[1..][i - 1] == moves[i];
      TryMovesSucceedsAt(n, roundTrip, first, movei, b, moves[1..], i - 1);
      TryMovesUnfold(n, roundTrip, first, movei, b, moves);
    }
  }

  lemma {:induction false} TryMovesSucceedsFirst(n: nat, roundTrip: bool, first: Pos, movei: nat, b: Board, moves: seq<Candidate>)
    requires Shaped(n, b) && 1 <= movei < n * n
    requires forall j :: 0 <= j < |moves| ==> IsSafe(n, b, moves[j].pos)
    requires moves != [] && IsSafe(n, b, moves[0].pos)
    requires Completable(n, roundTrip, first, moves[0].pos, movei + 1, Mark(n, b, moves[0].pos, movei))
    ensures TryMoves(n, roundTrip, first, movei, b, moves).0
    decreases n * n - movei, 0, |moves|, 0
  {
    CompletableSearchSucceeds(n, roundTrip, first, moves[0].pos, movei + 1, Mark(n, b, moves[0].pos, movei));
    TryMovesUnfold(n, roundTrip, first, movei, b, moves);
  }

  /**
   * The search is exhaustive: the Warnsdorff ordering changes which tour is
   * found but never whether one is found.
   */
  lemma SearchExhaustive(n: nat, roundTrip: bool, first: Pos, pos: Pos, movei: nat, b: Board)
    requires Shaped(n, b) && 1 <= movei <= n * n
    ensures Search(n, roundTrip, first, pos, movei, b).0 <==> Completable(n, roundTrip, first, pos, movei, b)
  {
    SearchOnlyIfCompletable(n, roundTrip, first, pos, movei, b);
    if Completable(n, roundTrip, first, pos, movei, b) {
      CompletableSearchSucceeds(n, roundTrip, first, pos, movei, b);
    }
  }

  /** `full` completes `path` on board `b`: a recorded path over every cell that starts with `path`. */
  ghost predicate Completes(n: nat, roundTrip: bool, b: Board, path: seq<Pos>, full: seq<Pos>) {
    && PathBoard(n, b, full)
    && |full| == n * n
    && |path| <= |full|
    && full[..|path|] == path
    && (roundTrip ==> |full| >= 1 && IsKnightMove(full[|full| - 1], full[0]))
  }

  /**
   * What a successful search leaves behind: the board records a knight path
   * over all `n * n` cells that extends the path recorded on entry, closed
   * when a round trip was required.
   */
  lemma {:induction false} SearchSound(n: nat, roundTrip: bool, first: Pos, pos: Pos, movei: nat, b: Board, path: seq<Pos>)
    requires 1 <= movei <= n * n
    requires PathBoard(n, b, path) && |path| == movei && path[0] == first && path[movei - 1] == pos
    ensures Search(n, roundTrip, first, pos, movei, b).0 ==>
      exists full :: Completes(n, roundTrip, Search(n, roundTrip, first, pos, movei, b).1, path, full)
    decreases n * n - movei, 1
  {
    if movei == n * n {
      if Search(n, roundTrip, first, pos, movei, b).0 {
        assert path[..|path|] == path;
        assert Completes(n, roundTrip, b, path, path);
      }
    } else {
      var moves := NextMoves(n, b, pos);
      NextMovesSpec(n, b, pos);
      forall i | 0 <= i < |moves|
        ensures IsSafe(n, b, moves[i].pos) && IsKnightMove(pos, moves[i].pos)
      {
        assert moves[i] in moves;
      }
      TryMovesSound(n, roundTrip, first, pos, movei, b, path, moves);
    }
  }

  lemma {:induction false} TryMovesSound(n: nat, roundTrip: bool, first: Pos, pos: Pos, movei: nat, b: Board, path: seq<Pos>, moves: seq<Candidate>)
    requires 1 <= movei < n * n
    requires PathBoard(n, b, path) && |path| == movei && path[0] == first && path[movei - 1] == pos
    requires forall i :: 0 <= i < |moves| ==> IsSafe(n, b, moves[i].pos) && IsKnightMove(pos, moves[i].pos)
    ensures TryMoves(n, roundTrip, first, movei, b, moves).0 ==>
      exists full :: Completes(n, roundTrip, TryMoves(n, roundTrip, first, movei, b, moves).1, path, full)
    decreases n * n - movei, 0, |moves|
  {
    if moves != [] {
      var m := moves[0].pos;
      var marked := Mark(n, b, m, movei);
      ExtendPath(n, b, path, m);
      SearchSound(n, roundTrip, first, m, movei + 1, marked, path + [m]);
      var attempt := Search(n, roundTrip, first, m, movei + 1, marked);
      if attempt.0 {
        var full :| Completes(n, roundTrip, attempt.1, path + [m], full);
        assert full[..movei] == full[..movei + 1][..movei] == path;
        assert Completes(n, roundTrip, attempt.1, path, full);
      } else {
        MarkUndo(n, b, m, movei);
        TryMovesSound(n, roundTrip, first, pos, movei, b, path, moves[1..]);
      }
    }
  }

  /**
   * If some tour starts with the recorded path, the position on entry can be
   * completed.
   */
  lemma {:induction false} TourPrefixCompletable(n: nat, roundTrip: bool, b: Board, path: seq<Pos>, tour: seq<Pos>)
    requires PathBoard(n, b, path) && 1 <= |path| <= n * n
    requires IsTour(n, tour, path[0], roundTrip) && tour[..|path|] == path
    ensures Completable(n, roundTrip, path[0], path[|path| - 1], |path|, b)
    decreases n * n - |path|
  {
    if |path| < n * n {
      var q := tour[|path|];
      assert path[|path| - 1] == tour[|path| - 1];
      assert IsKnightMove(path[|path| - 1], q);
      assert IsSafe(n, b, q);
      ExtendPath(n, b, path, q);
      assert tour[..|path| + 1] == path + [q];
      TourPrefixCompletable(n, roundTrip, Mark(n, b, q, |path|), path + [q], tour);
      CompletableStep(n, roundTrip, path[0], path[|path| - 1], |path|, b, q);
    } else {
      assert tour == tour[..|path|];
    }
  }
}
