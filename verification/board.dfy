/**
 * The chessboard of the Knight's Tour search: cells, the eight knight
 * displacements, the board of visit indices, and the two read-only queries
 * the search asks of it — is a cell safe to enter, and how many onward moves
 * a cell has (its Warnsdorff degree).
 */
module Board {

  /** A cell by column `x` (column 0 is file A) and row `y` (row 0 is the top rank). */
  datatype Pos = Pos(x: int, y: int)

  /**
   * `b[x][y]` is `Free` for a cell not yet visited, and otherwise the
   * 0-based step at which the knight reached it.
   */
  type Board = seq<seq<int>>

  const Free: int := -1

  /** The knight displacements, in the order the search tries them. */
  const Moves: seq<Pos> :=
    [Pos(2, 1), Pos(1, 2), Pos(-1, 2), Pos(-2, 1), Pos(-2, -1), Pos(-1, -2), Pos(1, -2), Pos(2, -1)]

  function Add(p: Pos, d: Pos): Pos {
    Pos(p.x + d.x, p.y + d.y)
  }

  /** The displacement that takes `p` to `q`. */
  function Diff(p: Pos, q: Pos): Pos {
    Pos(q.x - p.x, q.y - p.y)
  }

  predicate IsKnightMove(p: Pos, q: Pos) {
    Diff(p, q) in Moves
  }

  /** The index of displacement `d` in `Moves`, or `|Moves|` when `d` is not a knight move. */
  function MoveIndex(d: Pos): (k: nat)
    ensures k <= |Moves|
    ensures k < |Moves| ==> Moves[k] == d
  {
    if d == Moves[0] then 0
    else if d == Moves[1] then 1
    else if d == Moves[2] then 2
    else if d == Moves[3] then 3
    else if d == Moves[4] then 4
    else if d == Moves[5] then 5
    else if d == Moves[6] then 6
    else if d == Moves[7] then 7
    else 8
  }

  /** Every knight displacement is found in the table. */
  lemma MoveIndexFinds(d: Pos)
    requires d in Moves
    ensures MoveIndex(d) < |Moves|
  {
  }

  /** Each displacement is found at its own position. */
  lemma MoveIndexOfMove(k: nat)
    requires k < |Moves|
    ensures MoveIndex(Moves[k]) == k
  {
  }

  predicate OnBoard(n: int, p: Pos) {
    0 <= p.x < n && 0 <= p.y < n
  }

  /** `b` is an `n` by `n` grid. */
  predicate Shaped(n: nat, b: Board) {
    |b| == n && forall x :: 0 <= x < n ==> |b[x]| == n
  }

  function At(n: nat, b: Board, p: Pos): int
    requires Shaped(n, b) && OnBoard(n, p)
  {
    b[p.x][p.y]
  }

  /** The board with cell `p` set to `v` (the assignment `board[p.x][p.y] = v`). */
  function Mark(n: nat, b: Board, p: Pos, v: int): (r: Board)
    requires Shaped(n, b) && OnBoard(n, p)
    ensures Shaped(n, r)
    ensures At(n, r, p) == v
    ensures forall q :: OnBoard(n, q) && q != p ==> At(n, r, q) == At(n, b, q)
  {
    b[p.x := b[p.x][p.y := v]]
  }

  /** Writing `Free` back over a tentative mark restores the board exactly. */
  lemma {:induction false} MarkUndo(n: nat, b: Board, p: Pos, v: int)
    requires Shaped(n, b) && OnBoard(n, p) && At(n, b, p) == Free
    ensures Mark(n, Mark(n, b, p, v), p, Free) == b
  {
    var r := Mark(n, Mark(n, b, p, v), p, Free);
    assert r[p.x] == b[p.x];
  }

  /** A cell the knight may enter: on the board and not yet visited. */
  predicate IsSafe(n: nat, b: Board, p: Pos)
    requires Shaped(n, b)
  {
    OnBoard(n, p) && At(n, b, p) == Free
  }

  /** The offsets, from index `k` on, that take `p` to a safe cell. */
  ghost function SafeOffsets(n: nat, b: Board, p: Pos, k: nat): set<nat>
    requires Shaped(n, b)
  {
    set j: nat | k <= j < |Moves| && IsSafe(n, b, Add(p, Moves[j]))
  }

  /**
   * The number of onward moves from `p`: how many of the eight offsets land
   * on a safe cell.
   */
  function Degree(n: nat, b: Board, p: Pos): (d: nat)
    requires Shaped(n, b)
    ensures d <= |Moves|
  {
    DegreeFrom(n, b, p, 0)
  }

  /**
   * The count of safe offsets among `Moves[k..]`. The position heads the
   * decreases clause (it never changes) so that the verifier does not unroll
   * the whole count whenever `k` is a literal.
   */
  function DegreeFrom(n: nat, b: Board, p: Pos, k: nat): (d: nat)
    requires Shaped(n, b) && k <= |Moves|
    ensures d <= |Moves| - k
    decreases p, |Moves| - k
  {
    if k == |Moves| then 0
    else (if IsSafe(n, b, Add(p, Moves[k])) then 1 else 0) + DegreeFrom(n, b, p, k + 1)
  }

  lemma {:induction false} DegreeFromCounts(n: nat, b: Board, p: Pos, k: nat)
    requires Shaped(n, b) && k <= |Moves|
    ensures DegreeFrom(n, b, p, k) == |SafeOffsets(n, b, p, k)|
    decreases |Moves| - k
  {
    if k == |Moves| {
      assert SafeOffsets(n, b, p, k) == {};
    } else {
      DegreeFromCounts(n, b, p, k + 1);
      SafeOffsetsStep(n, b, p, k);
    }
  }

  /** The safe offsets from `k` on are those from `k + 1` on, plus `k` itself when it is safe. */
  lemma SafeOffsetsStep(n: nat, b: Board, p: Pos, k: nat)
    requires Shaped(n, b) && k < |Moves|
    ensures IsSafe(n, b, Add(p, Moves[k])) ==> SafeOffsets(n, b, p, k) == {k} + SafeOffsets(n, b, p, k + 1)
    ensures !IsSafe(n, b, Add(p, Moves[k])) ==> SafeOffsets(n, b, p, k) == SafeOffsets(n, b, p, k + 1)
    ensures k !in SafeOffsets(n, b, p, k + 1)
  {
  }

  /**
   * The degree is the number of offsets that land on a safe cell; it is zero
   * exactly when no offset does.
   */
  lemma DegreeCountsSafeOffsets(n: nat, b: Board, p: Pos)
    requires Shaped(n, b)
    ensures Degree(n, b, p) == |SafeOffsets(n, b, p, 0)|
    ensures Degree(n, b, p) == 0 <==> forall k :: 0 <= k < |Moves| ==> !IsSafe(n, b, Add(p, Moves[k]))
  {
    DegreeFromCounts(n, b, p, 0);
    if Degree(n, b, p) != 0 {
      var k :| k in SafeOffsets(n, b, p, 0);
    }
    forall k | 0 <= k < |Moves| && IsSafe(n, b, Add(p, Moves[k]))
      ensures k in SafeOffsets(n, b, p, 0)
    {
    }
  }

  /** An `n` by `n` board with every cell unvisited. */
  function FreshBoard(n: nat): (r: Board)
    ensures Shaped(n, r)
    ensures forall p :: OnBoard(n, p) ==> At(n, r, p) == Free
  {
    seq(n, _ => seq(n, _ => Free))
  }

  /** The number of unvisited cells of one column. */
  function ColumnFree(col: seq<int>): nat {
    if col == [] then 0 else (if col[0] == Free then 1 else 0) + ColumnFree(col[1..])
  }

  /** The number of unvisited cells on the board. */
  function FreeCount(b: Board): nat {
    if b == [] then 0 else ColumnFree(b[0]) + FreeCount(b[1..])
  }

  lemma {:induction false} ColumnFreeUpdate(col: seq<int>, y: nat, v: int)
    requires y < |col|
    ensures ColumnFree(col[y := v]) ==
      ColumnFree(col) - (if col[y] == Free then 1 else 0) + (if v == Free then 1 else 0)
    decreases |col|
  {
    if y == 0 {
      assert col[y := v][1..] == col[1..];
    } else {
      assert col[y := v][1..] == col[1..][y - 1 := v];
      ColumnFreeUpdate(col[1..], y - 1, v);
    }
  }

  lemma {:induction false} FreeCountUpdate(b: Board, x: nat, col: seq<int>)
    requires x < |b|
    ensures FreeCount(b[x := col]) == FreeCount(b) - ColumnFree(b[x]) + ColumnFree(col)
    decreases |b|
  {
    if x == 0 {
      assert b[x := col][1..] == b[1..];
    } else {
      assert b[x := col][1..] == b[1..][x - 1 := col];
      FreeCountUpdate(b[1..], x - 1, col);
    }
  }

  /** Visiting one unvisited cell lowers the unvisited count by one. */
  lemma MarkFreeCount(n: nat, b: Board, p: Pos, v: int)
    requires Shaped(n, b) && OnBoard(n, p) && At(n, b, p) == Free && v != Free
    ensures FreeCount(Mark(n, b, p, v)) == FreeCount(b) - 1
  {
    ColumnFreeUpdate(b[p.x], p.y, v);
    FreeCountUpdate(b, p.x, b[p.x][p.y := v]);
  }

  lemma {:induction false} FreshColumnFree(m: nat)
    ensures ColumnFree(seq(m, _ => Free)) == m
  {
    if m > 0 {
      assert seq(m, _ => Free)[1..] == seq(m - 1, _ => Free);
      FreshColumnFree(m - 1);
    }
  }

  lemma {:induction false} FreshFreeCountOf(cols: nat, n: nat)
    ensures FreeCount(seq(cols, _ => seq(n, _ => Free))) == cols * n
  {
    if cols > 0 {
      assert seq(cols, _ => seq(n, _ => Free))[1..] == seq(cols - 1, _ => seq(n, _ => Free));
      FreshColumnFree(n);
      FreshFreeCountOf(cols - 1, n);
    }
  }

  /** A fresh board has all `n * n` cells unvisited. */
  lemma FreshFreeCount(n: nat)
    ensures FreeCount(FreshBoard(n)) == n * n
  {
    FreshFreeCountOf(n, n);
  }

  lemma {:induction false} ColumnFreePositive(col: seq<int>, y: nat)
    requires y < |col| && col[y] == Free
    ensures ColumnFree(col) >= 1
  {
    if y > 0 {
      ColumnFreePositive(col[1..], y - 1);
    }
  }

  lemma {:induction false} FreeCountAtLeastColumn(b: Board, x: nat)
    requires x < |b|
    ensures FreeCount(b) >= ColumnFree(b[x])
  {
    if x > 0 {
      FreeCountAtLeastColumn(b[1..], x - 1);
    }
  }

  /** A board whose unvisited count is zero has every cell visited. */
  lemma NoFreeCell(n: nat, b: Board)
    requires Shaped(n, b) && FreeCount(b) == 0
    ensures forall p :: OnBoard(n, p) ==> At(n, b, p) != Free
  {
    forall p | OnBoard(n, p)
      ensures At(n, b, p) != Free
    {
      if At(n, b, p) == Free {
        ColumnFreePositive(b[p.x], p.y);
        FreeCountAtLeastColumn(b, p.x);
      }
    }
  }
}
