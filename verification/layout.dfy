/** Line and full-board detection on a boolean completion matrix
    (`checkLines` in src/lib/layout.ts). */
module Layout {
  import opened Base

  /** `completed[r][c]` is true when cell (r, c) is done. Rows may have any length. */
  type Matrix = seq<seq<bool>>

  /** What `checkLines` reports. */
  datatype Lines = Lines(hasLine: bool, hasBingo: bool)

  /** The board side `checkLines` assumes, whatever matrix it is given. */
  const Side: nat := 4

  /** `xs.every(Boolean)`. */
  function Every(xs: seq<bool>): (r: bool)
    ensures r <==> forall i :: 0 <= i < |xs| ==> xs[i]
  {
    if |xs| == 0 then true else xs[0] && Every(xs[1..])
  }

  /** `xs.some(Boolean)`. */
  function Any(xs: seq<bool>): (r: bool)
    ensures r <==> exists i :: 0 <= i < |xs| && xs[i]
  {
    if |xs| == 0 then false
    else if xs[0] then true
    else
      assert forall i :: 1 <= i < |xs| ==> xs[i] == xs[1..][i - 1];
      Any(xs[1..])
  }

  /** `completed.flat()`: the rows laid end to end. */
  function Flatten(m: Matrix): seq<bool> {
    if |m| == 0 then [] else m[0] + Flatten(m[1..])
  }

  /** Reading `row[c]`: an index outside the row yields `undefined`, which is falsy. */
  function At(row: seq<bool>, c: int): bool {
    0 <= c < |row| && row[c]
  }

  /** `completed.map(r => r[c])`. */
  function Column(m: Matrix, c: int): (col: seq<bool>)
    ensures |col| == |m|
  {
    seq(|m|, i requires 0 <= i < |m| => At(m[i], c))
  }

  // ---------------------------------------------------------------------
  // Reference definitions of a complete line and a complete board
  // ---------------------------------------------------------------------

  /** Every cell of row `r`, however long the row, is done. */
  predicate RowComplete(m: Matrix, r: nat)
    requires r < |m|
  {
    forall c :: 0 <= c < |m[r]| ==> m[r][c]
  }

  /** Every row has a cell at column `c`, and it is done. */
  predicate ColumnComplete(m: Matrix, c: nat) {
    forall r :: 0 <= r < |m| ==> c < |m[r]| && m[r][c]
  }

  /** Cells (0,0) .. (n-1,n-1) exist and are done. */
  predicate DiagonalComplete(m: Matrix, n: nat)
    requires n <= |m|
  {
    forall i :: 0 <= i < n ==> i < |m[i]| && m[i][i]
  }

  /** Cells (0,n-1) .. (n-1,0) exist and are done. */
  predicate AntiDiagonalComplete(m: Matrix, n: nat)
    requires n <= |m|
  {
    forall i :: 0 <= i < n ==> n - 1 - i < |m[i]| && m[i][n - 1 - i]
  }

  /** One of the first `n` rows, one of the first `n` columns, or one of the two
      diagonals of the leading n-by-n square is complete. */
  predicate HasCompleteLine(m: Matrix, n: nat)
    requires n <= |m|
  {
    || (exists r :: 0 <= r < n && RowComplete(m, r))
    || (exists c :: 0 <= c < n && ColumnComplete(m, c))
    || DiagonalComplete(m, n)
    || AntiDiagonalComplete(m, n)
  }

  /** Every cell of the matrix is done. */
  predicate AllCells(m: Matrix) {
    forall r, c :: 0 <= r < |m| && 0 <= c < |m[r]| ==> m[r][c]
  }

  // ---------------------------------------------------------------------
  // checkLines
  // ---------------------------------------------------------------------

  /** `checkLines` with the side `n` as a parameter. Rows 0..n-1 are read with
      `completed[r]`, which is `undefined` when the matrix has fewer rows, and
      calling `.every` on it throws. */
  function CheckLinesOf(m: Matrix, n: nat): (r: Result<Lines>)
    ensures r.Failure? <==> |m| < n
    ensures r.Failure? ==> r.fault == TypeError
    ensures r.Success? ==> (r.value.hasLine <==> HasCompleteLine(m, n))
    ensures r.Success? ==> (r.value.hasBingo <==> AllCells(m))
  {
    if |m| < n then Failure(TypeError)
    else
      var rows := seq(n, r requires 0 <= r < n => Every(m[r]));
      var cols := seq(n, c requires 0 <= c < n => Every(Column(m, c)));
      var d1 := Every(seq(n, i requires 0 <= i < n => At(m[i], i)));
      var d2 := Every(seq(n, i requires 0 <= i < n => At(m[i], n - 1 - i)));
      var candidates := rows + cols + [d1, d2];
      LineCandidates(m, n, rows, cols, d1, d2);
      EveryFlatten(m);
      Success(Lines(Any(candidates), Every(Flatten(m))))
  }

  /** `checkLines` exactly as written: the side is fixed at 4. */
  function CheckLines(m: Matrix): (r: Result<Lines>)
    ensures r.Failure? <==> |m| < Side
    ensures r.Success? ==> (r.value.hasLine <==> HasCompleteLine(m, Side))
    ensures r.Success? ==> (r.value.hasBingo <==> AllCells(m))
  {
    CheckLinesOf(m, Side)
  }

  /** Some line candidate is true exactly when some line is complete. */
  lemma LineCandidates(m: Matrix, n: nat, rows: seq<bool>, cols: seq<bool>, d1: bool, d2: bool)
    requires n <= |m|
    requires rows == seq(n, r requires 0 <= r < n => Every(m[r]))
    requires cols == seq(n, c requires 0 <= c < n => Every(Column(m, c)))
    requires d1 == Every(seq(n, i requires 0 <= i < n => At(m[i], i)))
    requires d2 == Every(seq(n, i requires 0 <= i < n => At(m[i], n - 1 - i)))
    ensures Any(rows + cols + [d1, d2]) <==> HasCompleteLine(m, n)
  {
    var all := rows + cols + [d1, d2];
    RowCandidates(m, n, rows);
    ColumnCandidates(m, n, cols);
    DiagonalCandidates(m, n, d1, d2);
    assert forall k :: 0 <= k < n ==> all[k] == rows[k];
    assert forall k :: 0 <= k < n ==> all[n + k] == cols[k];
    assert all[2 * n] == d1 && all[2 * n + 1] == d2;
    if HasCompleteLine(m, n) {
      if r :| 0 <= r < n && RowComplete(m, r) {
        assert all[r];
      } else if c :| 0 <= c < n && ColumnComplete(m, c) {
        assert all[n + c];
      } else if DiagonalComplete(m, n) {
        assert all[2 * n];
      } else {
        assert all[2 * n + 1];
      }
    }
    if Any(all) {
      var k :| 0 <= k < |all| && all[k];
      if k < n {
        assert RowComplete(m, k);
      } else if k < 2 * n {
        assert ColumnComplete(m, k - n);
      }
    }
  }

  lemma RowCandidates(m: Matrix, n: nat, rows: seq<bool>)
    requires n <= |m|
    requires rows == seq(n, r requires 0 <= r < n => Every(m[r]))
    ensures forall r :: 0 <= r < n ==> (rows[r] <==> RowComplete(m, r))
  {
  }

  lemma ColumnCandidates(m: Matrix, n: nat, cols: seq<bool>)
    requires cols == seq(n, c requires 0 <= c < n => Every(Column(m, c)))
    ensures forall c :: 0 <= c < n ==> (cols[c] <==> ColumnComplete(m, c))
  {
    forall c | 0 <= c < n
      ensures cols[c] <==> ColumnComplete(m, c)
    {
      var col := Column(m, c);
      assert forall r :: 0 <= r < |m| ==> col[r] == At(m[r], c);
    }
  }

  lemma DiagonalCandidates(m: Matrix, n: nat, d1: bool, d2: bool)
    requires n <= |m|
    requires d1 == Every(seq(n, i requires 0 <= i < n => At(m[i], i)))
    requires d2 == Every(seq(n, i requires 0 <= i < n => At(m[i], n - 1 - i)))
    ensures d1 <==> DiagonalComplete(m, n)
    ensures d2 <==> AntiDiagonalComplete(m, n)
  {
    var md := seq(n, i requires 0 <= i < n => At(m[i], i));
    var ad := seq(n, i requires 0 <= i < n => At(m[i], n - 1 - i));
    assert forall i :: 0 <= i < n ==> md[i] == At(m[i], i);
    assert forall i :: 0 <= i < n ==> ad[i] == At(m[i], n - 1 - i);
  }

  /** `completed.flat().every(Boolean)` holds exactly when every cell is done. */
  lemma {:induction false} EveryFlatten(m: Matrix)
    ensures Every(Flatten(m)) <==> AllCells(m)
  {
    if |m| > 0 {
      EveryFlatten(m[1..]);
      var rest := Flatten(m[1..]);
      assert Flatten(m) == m[0] + rest;
      EveryAppend(m[0], rest);
      assert AllCells(m) <==> RowComplete(m, 0) && AllCells(m[1..]) by {
        forall r, c | 1 <= r < |m| && 0 <= c < |m[r]|
          ensures m[r][c] == m[1..][r - 1][c]
        { }
      }
    }
  }

  lemma EveryAppend(xs: seq<bool>, ys: seq<bool>)
    ensures Every(xs + ys) <==> Every(xs) && Every(ys)
  {
    var zs := xs + ys;
    assert forall i :: 0 <= i < |xs| ==> zs[i] == xs[i];
    assert forall i :: 0 <= i < |ys| ==> zs[|xs| + i] == ys[i];
  }

  // ---------------------------------------------------------------------
  // Properties of checkLines
  // ---------------------------------------------------------------------

  /** The matrix with cell (r, c) marked done. */
  function Mark(m: Matrix, r: nat, c: nat): (m': Matrix)
    requires r < |m| && c < |m[r]|
  {
    m[r := m[r][c := true]]
  }

  /** An n-by-n matrix with no cell done. */
  function Blank(n: nat): (m: Matrix)
  {
    seq(n, _ => seq(n, _ => false))
  }

  /** Marking a cell done never withdraws a line or a full board, and never
      changes whether the check throws. */
  lemma CheckLinesMonotone(m: Matrix, n: nat, r: nat, c: nat)
    requires r < |m| && c < |m[r]|
    ensures CheckLinesOf(Mark(m, r, c), n).Success? == CheckLinesOf(m, n).Success?
    ensures CheckLinesOf(m, n).Success? && CheckLinesOf(m, n).value.hasLine ==> CheckLinesOf(Mark(m, r, c), n).value.hasLine
    ensures CheckLinesOf(m, n).Success? && CheckLinesOf(m, n).value.hasBingo ==> CheckLinesOf(Mark(m, r, c), n).value.hasBingo
  {
    var m' := Mark(m, r, c);
    assert forall i, j :: 0 <= i < |m| && 0 <= j < |m[i]| ==> j < |m'[i]| && (m[i][j] ==> m'[i][j]);
    if n <= |m| && HasCompleteLine(m, n) {
      if k :| 0 <= k < n && RowComplete(m, k) {
        assert RowComplete(m', k);
      } else if k :| 0 <= k < n && ColumnComplete(m, k) {
        assert ColumnComplete(m', k);
      } else if DiagonalComplete(m, n) {
        assert DiagonalComplete(m', n);
      } else {
        assert AntiDiagonalComplete(m', n);
      }
    }
    if AllCells(m) {
      assert AllCells(m');
    }
  }

  /** A full board always has a complete first row, so it is also reported as a line. */
  lemma BingoImpliesLine(m: Matrix, n: nat)
    requires CheckLinesOf(m, n).Success? && CheckLinesOf(m, n).value.hasBingo
    ensures CheckLinesOf(m, n).value.hasLine
  {
  }

  /** A matrix with no cell done and no empty row has neither a line nor a full
      board, as soon as at least one line is examined. */
  lemma NothingDoneNothingReported(m: Matrix, n: nat)
    requires 1 <= n <= |m|
    requires forall r :: 0 <= r < |m| ==> |m[r]| > 0
    requires forall r, c :: 0 <= r < |m| && 0 <= c < |m[r]| ==> !m[r][c]
    ensures CheckLinesOf(m, n) == Success(Lines(false, false))
  {
  }

  /** The blank square matrices the admin view starts from. */
  lemma BlankReportsNothing(k: nat, n: nat)
    requires 1 <= n <= k
    ensures CheckLinesOf(Blank(k), n) == Success(Lines(false, false))
  {
  }
}
