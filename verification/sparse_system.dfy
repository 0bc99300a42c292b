/** A sparse linear system given as a list of (row, column, value) triplets.

    The matrix is the one the solver library builds from the list: the
    coefficient at (r, c) is the SUM of the values of all triplets at (r, c).
    Every notion below reads only the triplets of one row, so each is defined
    on `RowOf`, the sub-list of a row's triplets. */
module SparseSystem {
  import opened Geometry

  datatype Triplet = Triplet(row: nat, col: nat, value: real)

  /** The triplets of row r, in list order. */
  function RowOf(ts: seq<Triplet>, r: nat): (row: seq<Triplet>)
    ensures |row| <= |ts|
    ensures forall j | 0 <= j < |row| :: row[j].row == r
  {
    if ts == [] then []
    else
      var last := ts[|ts| - 1];
      RowOf(ts[..|ts| - 1], r) + (if last.row == r then [last] else [])
  }

  /** Every column index is below n. */
  predicate ColumnsBelow(ts: seq<Triplet>, n: nat) {
    forall j | 0 <= j < |ts| :: ts[j].col < n
  }

  /** Sum of the values in a list of triplets. */
  function ValueSum(row: seq<Triplet>): real {
    if row == [] then 0.0 else ValueSum(row[..|row| - 1]) + row[|row| - 1].value
  }

  /** Sum of the values at column c in a list of triplets. */
  function ColumnValue(row: seq<Triplet>, c: nat): real {
    if row == [] then 0.0
    else
      var last := row[|row| - 1];
      ColumnValue(row[..|row| - 1], c) + (if last.col == c then last.value else 0.0)
  }

  /** Σ value * X[col] over a list of triplets. */
  function Combination(row: seq<Triplet>, X: seq<Vec3>): Vec3
    requires ColumnsBelow(row, |X|)
  {
    if row == [] then Zero
    else
      var last := row[|row| - 1];
      Add(Combination(row[..|row| - 1], X), Scale(X[last.col], last.value))
  }

  /** The matrix coefficient at (r, c): duplicates are summed. */
  function Entry(ts: seq<Triplet>, r: nat, c: nat): real {
    ColumnValue(RowOf(ts, r), c)
  }

  /** The sum of all coefficients of row r. */
  function RowSum(ts: seq<Triplet>, r: nat): real {
    ValueSum(RowOf(ts, r))
  }

  /** The sum of the coefficients of row r off the diagonal. */
  function OffDiagonalSum(ts: seq<Triplet>, r: nat): real {
    RowSum(ts, r) - Entry(ts, r, r)
  }

  /** Row r of the matrix product A * X, one column per coordinate axis. */
  function Product(ts: seq<Triplet>, X: seq<Vec3>, r: nat): Vec3
    requires ColumnsBelow(ts, |X|)
  {
    RowOfColumnsBelow(ts, r, |X|);
    Combination(RowOf(ts, r), X)
  }

  /** X solves A * X = rhs. */
  ghost predicate Solves(ts: seq<Triplet>, rhs: seq<Vec3>, X: seq<Vec3>) {
    && |X| == |rhs|
    && ColumnsBelow(ts, |X|)
    && forall i | 0 <= i < |rhs| :: Product(ts, X, i) == rhs[i]
  }

  lemma {:induction false} RowOfColumnsBelow(ts: seq<Triplet>, r: nat, n: nat)
    requires ColumnsBelow(ts, n)
    ensures ColumnsBelow(RowOf(ts, r), n)
  {
    if ts != [] {
      var init := ts[..|ts| - 1];
      assert ColumnsBelow(init, n);
      RowOfColumnsBelow(init, r, n);
    }
  }

  lemma {:induction false} RowOfConcat(a: seq<Triplet>, b: seq<Triplet>, r: nat)
    ensures RowOf(a + b, r) == RowOf(a, r) + RowOf(b, r)
  {
    if b == [] {
      assert a + b == a;
    } else {
      var b' := b[..|b| - 1];
      assert (a + b)[..|a + b| - 1] == a + b';
      RowOfConcat(a, b', r);
    }
  }

  /** A list whose triplets all lie in row r is its own row r. */
  lemma {:induction false} RowOfSingleRow(ts: seq<Triplet>, r: nat)
    requires forall j | 0 <= j < |ts| :: ts[j].row == r
    ensures RowOf(ts, r) == ts
  {
    if ts != [] {
      var ts' := ts[..|ts| - 1];
      RowOfSingleRow(ts', r);
      assert ts' + [ts[|ts| - 1]] == ts;
    }
  }

  /** A list with no triplet in row r has an empty row r. */
  lemma {:induction false} RowOfOtherRows(ts: seq<Triplet>, r: nat)
    requires forall j | 0 <= j < |ts| :: ts[j].row != r
    ensures RowOf(ts, r) == []
  {
    if ts != [] {
      RowOfOtherRows(ts[..|ts| - 1], r);
    }
  }

  lemma ValueSumSnoc(row: seq<Triplet>, t: Triplet)
    ensures ValueSum(row + [t]) == ValueSum(row) + t.value
  {
    assert (row + [t])[..|row|] == row;
  }

  lemma ColumnValueSnoc(row: seq<Triplet>, t: Triplet, c: nat)
    ensures ColumnValue(row + [t], c) == ColumnValue(row, c) + (if t.col == c then t.value else 0.0)
  {
    assert (row + [t])[..|row|] == row;
  }

  lemma CombinationSnoc(row: seq<Triplet>, t: Triplet, X: seq<Vec3>)
    requires ColumnsBelow(row, |X|) && t.col < |X|
    ensures ColumnsBelow(row + [t], |X|)
    ensures Combination(row + [t], X) == Add(Combination(row, X), Scale(X[t.col], t.value))
  {
    assert (row + [t])[..|row|] == row;
  }

  /** A list with no triplet at column c contributes nothing there. */
  lemma {:induction false} ColumnValueAbsent(row: seq<Triplet>, c: nat)
    requires forall j | 0 <= j < |row| :: row[j].col != c
    ensures ColumnValue(row, c) == 0.0
  {
    if row != [] {
      ColumnValueAbsent(row[..|row| - 1], c);
    }
  }

  /** A list of zero-valued triplets contributes nothing anywhere. */
  lemma {:induction false} ZeroValues(row: seq<Triplet>, c: nat, X: seq<Vec3>)
    requires ColumnsBelow(row, |X|)
    requires forall j | 0 <= j < |row| :: row[j].value == 0.0
    ensures ColumnValue(row, c) == 0.0 && ValueSum(row) == 0.0
    ensures Combination(row, X) == Zero
  {
    if row != [] {
      var init := row[..|row| - 1];
      assert ColumnsBelow(init, |X|);
      ZeroValues(init, c, X);
      ScaleByZero(X[row[|row| - 1].col]);
    }
  }

  lemma ScaleByZero(x: Vec3)
    ensures Add(Zero, Scale(x, 0.0)) == Zero
  {
  }

  /** The triplets of a list of rows, pushed row after row. */
  function Flatten(rows: seq<seq<Triplet>>): seq<Triplet> {
    if rows == [] then [] else Flatten(rows[..|rows| - 1]) + rows[|rows| - 1]
  }

  /** Row list entry j holds only triplets of row j. */
  predicate RowsIndexed(rows: seq<seq<Triplet>>) {
    forall j, l | 0 <= j < |rows| && 0 <= l < |rows[j]| :: rows[j][l].row == j
  }

  /** Every triplet of every row has a column below n. */
  predicate RowsColumnsBelow(rows: seq<seq<Triplet>>, n: nat) {
    forall j, l | 0 <= j < |rows| && 0 <= l < |rows[j]| :: rows[j][l].col < n
  }

  /** Row i of flattened rows is the i-th row of the list. */
  lemma {:induction false} RowOfFlatten(rows: seq<seq<Triplet>>, i: nat)
    requires RowsIndexed(rows)
    ensures i < |rows| ==> RowOf(Flatten(rows), i) == rows[i]
    ensures |rows| <= i ==> RowOf(Flatten(rows), i) == []
  {
    if rows != [] {
      var init := rows[..|rows| - 1];
      var last := rows[|rows| - 1];
      assert RowsIndexed(init);
      RowOfFlatten(init, i);
      RowOfConcat(Flatten(init), last, i);
      if i == |rows| - 1 {
        RowOfSingleRow(last, i);
      } else {
        RowOfOtherRows(last, i);
      }
    }
  }

  lemma {:induction false} FlattenColumnsBelow(rows: seq<seq<Triplet>>, n: nat)
    requires RowsColumnsBelow(rows, n)
    ensures ColumnsBelow(Flatten(rows), n)
  {
    if rows != [] {
      var init := rows[..|rows| - 1];
      assert RowsColumnsBelow(init, n);
      FlattenColumnsBelow(init, n);
      var last := rows[|rows| - 1];
      assert ColumnsBelow(last, n);
    }
  }
}
