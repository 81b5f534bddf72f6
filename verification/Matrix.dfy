/** Matrices stored row by row in one vector. */
module Matrices {
  import opened Graphs

  /** The position of row i, column j. */
  function Cell(i: nat, j: nat, cols: nat): nat { i * cols + j }

  lemma CellBound(rows: nat, cols: nat, i: nat, j: nat)
    requires i < rows && j < cols
    ensures Cell(i, j, cols) < rows * cols
  {
    MulLe(i + 1, rows, cols);
    assert (i + 1) * cols == i * cols + cols;
  }

  lemma MulLe(a: nat, b: nat, c: nat)
    requires a <= b
    ensures a * c <= b * c
  {}

  /** Different cells have different positions. */
  lemma CellApart(cols: nat, i: nat, j: nat, x: nat, y: nat)
    requires j < cols && y < cols && (x != i || y != j)
    ensures Cell(i, j, cols) != Cell(x, y, cols)
  {
    if x < i {
      MulLe(x + 1, i, cols);
      assert (x + 1) * cols == x * cols + cols;
    } else if i < x {
      MulLe(i + 1, x, cols);
      assert (i + 1) * cols == i * cols + cols;
    }
  }

  predicate SquareOf<T>(m: seq<seq<T>>, n: nat) {
    |m| == n && forall i :: 0 <= i < n ==> |m[i]| == n
  }

  /** The entries of a square matrix at the given pairs, in order. */
  function Entries<T>(m: seq<seq<T>>, n: nat, ps: seq<(nat, nat)>): (s: seq<T>)
    requires SquareOf(m, n) && forall k :: 0 <= k < |ps| ==> ps[k].0 < n && ps[k].1 < n
    ensures |s| == |ps| && forall k :: 0 <= k < |s| ==> s[k] == m[ps[k].0][ps[k].1]
  {
    seq(|ps|, (k: nat) requires k < |ps| => m[ps[k].0][ps[k].1])
  }

  predicate Within(p: seq<nat>, n: nat) { forall i :: 0 <= i < |p| ==> p[i] < n }

  /** The matrix with rows and columns renamed; indices beyond the permutation stay. */
  function Permuted<T>(m: seq<seq<T>>, n: nat, p: seq<nat>): (r: seq<seq<T>>)
    requires SquareOf(m, n) && Within(p, n)
    ensures SquareOf(r, n) && forall i, j :: 0 <= i < n && 0 <= j < n ==> r[i][j] == m[At(p, i)][At(p, j)]
  {
    seq(n, (i: nat) requires i < n => seq(n, (j: nat) requires j < n => m[At(p, i)][At(p, j)]))
  }

  lemma EntriesJoin<T>(m: seq<seq<T>>, n: nat, ps: seq<(nat, nat)>, qs: seq<(nat, nat)>)
    requires SquareOf(m, n)
    requires forall k :: 0 <= k < |ps + qs| ==> (ps + qs)[k].0 < n && (ps + qs)[k].1 < n
    ensures forall k :: 0 <= k < |ps| ==> ps[k].0 < n && ps[k].1 < n
    ensures forall k :: 0 <= k < |qs| ==> qs[k].0 < n && qs[k].1 < n
    ensures Entries(m, n, ps + qs) == Entries(m, n, ps) + Entries(m, n, qs)
  {
    assert forall k :: 0 <= k < |ps| ==> ps[k] == (ps + qs)[k];
    assert forall k :: 0 <= k < |qs| ==> qs[k] == (ps + qs)[|ps| + k];
  }

  class Matrix<T> {
    var elements: seq<T>
    const nRows: nat
    const nCols: nat

    ghost predicate Valid()
      reads this
    {
      |elements| == nRows * nCols
    }

    function Get(i: nat, j: nat): T
      requires Valid() && i < nRows && j < nCols
      reads this
    {
      CellBound(nRows, nCols, i, j);
      elements[Cell(i, j, nCols)]
    }

    /** The matrix as a sequence of rows. */
    ghost function Rows(): (r: seq<seq<T>>)
      requires Valid()
      reads this
      ensures |r| == nRows
      ensures forall i :: 0 <= i < nRows ==> |r[i]| == nCols && forall j :: 0 <= j < nCols ==> r[i][j] == Get(i, j)
    {
      seq(nRows, (i: nat) requires i < nRows reads this requires Valid() =>
        seq(nCols, (j: nat) requires j < nCols reads this requires Valid() => Get(i, j)))
    }

    ghost predicate Square(n: nat)
      reads this
    {
      Valid() && nRows == n && nCols == n
    }

    constructor (n: nat, m: nat, zero: T)
      ensures Valid() && nRows == n && nCols == m
    {
      nRows, nCols := n, m;
      elements := seq(n * m, (k: nat) => zero);
    }

    method Set(i: nat, j: nat, element: T)
      requires Valid() && i < nRows && j < nCols
      modifies this
      ensures Valid() && Rows() == old(Rows())[i := old(Rows())[i][j := element]]
    {
      hide Cell;
      CellBound(nRows, nCols, i, j);
      ghost var was := Rows();
      elements := elements[Cell(i, j, nCols) := element];
      forall x, y | 0 <= x < nRows && 0 <= y < nCols
        ensures Rows()[x][y] == if x == i && y == j then element else was[x][y]
      {
        if x != i || y != j { CellApart(nCols, i, j, x, y); }
        CellBound(nRows, nCols, x, y);
      }
      assert Rows()[i] == was[i][j := element];
      assert forall x :: 0 <= x < nRows && x != i ==> Rows()[x] == was[x];
    }

    /** A renamed copy, extended by the identity beyond the permutation's length. */
    method Permute(perm: seq<nat>, zero: T) returns (permuted: Matrix<T>)
      requires Valid() && nRows == nCols && Within(perm, nRows)
      ensures fresh(permuted) && permuted.Square(nRows) && permuted.Rows() == Permuted(Rows(), nRows, perm)
    {
      permuted := new Matrix(nRows, nCols, zero);
      for i := 0 to nRows
        invariant permuted.Square(nRows)
        invariant forall x :: 0 <= x < i ==> permuted.Rows()[x] == Permuted(Rows(), nRows, perm)[x]
      {
        permuted.PermuteRow(this, perm, i);
      }
    }

    method PermuteRow(g: Matrix<T>, perm: seq<nat>, i: nat)
      requires g != this && g.Valid() && Square(g.nRows) && g.nRows == g.nCols && Within(perm, nRows) && i < nRows
      modifies this
      ensures Valid() && Rows() == old(Rows())[i := Permuted(g.Rows(), nRows, perm)[i]]
    {
      hide Cell;
      ghost var want := Permuted(g.Rows(), nRows, perm)[i];
      for j := 0 to nCols
        invariant Valid() && Rows() == old(Rows())[i := Rows()[i]]
        invariant forall y :: 0 <= y < j ==> Rows()[i][y] == want[y]
      {
        var pi := if i < |perm| then perm[i] else i;
        var pj := if j < |perm| then perm[j] else j;
        Set(i, j, g.Get(pi, pj));
      }
      assert Rows()[i] == want;
    }

    /** The strings in closed form: length, and the entry at each position. */
    lemma TrianglePositions()
      requires Valid() && nRows == nCols
      ensures var ut := Entries(Rows(), nRows, PairsIn(nRows, UpperTriangleRows));
        |ut| == nRows * (nRows - 1) / 2
        && forall i: nat, j: nat :: i < j < nRows ==>
          0 <= RowAt(i, j, nRows) < |ut| && ut[RowAt(i, j, nRows)] == Rows()[i][j]
      ensures var lt := Entries(Rows(), nRows, PairsIn(nRows, UpperTriangleCols));
        |lt| == nRows * (nRows - 1) / 2
        && forall i: nat, j: nat :: j < i < nRows ==>
          0 <= ColAt(i, j) < |lt| && lt[ColAt(i, j)] == Rows()[i][j]
    {
      hide RowAt, ColAt, Pairs, Cell, Rows;
      PairsLength(nRows, UpperTriangleRows);
      PairsLength(nRows, UpperTriangleCols);
      forall i: nat, j: nat | i < j < nRows
        ensures var ps := Pairs(nRows, UpperTriangleRows);
          0 <= RowAt(i, j, nRows) < |ps| && ps[RowAt(i, j, nRows)] == (i, j)
        ensures var ps := Pairs(nRows, UpperTriangleCols); 0 <= ColAt(j, i) < |ps| && ps[ColAt(j, i)] == (j, i)
      {
        Position(nRows, i, j);
      }
    }

    /** The entries above the diagonal, row by row. */
    method UpperTriangle() returns (ut: seq<T>)
      requires Valid() && nRows == nCols
      ensures ut == Entries(Rows(), nRows, PairsIn(nRows, UpperTriangleRows))
      ensures |ut| == nRows * (nRows - 1) / 2
      ensures forall i: nat, j: nat :: i < j < nRows ==>
        0 <= RowAt(i, j, nRows) < |ut| && ut[RowAt(i, j, nRows)] == Rows()[i][j]
    {
      hide Cell, Valid, Rows;
      TrianglePositions();
      ut := [];
      ghost var ps: seq<(nat, nat)> := [];
      ghost var all := PairsIn(nRows, UpperTriangleRows);
      for i := 0 to nRows
        invariant all == ps + RowPairs(i, nRows)
        invariant forall k :: 0 <= k < |ps| ==> ps[k].0 < nRows && ps[k].1 < nRows
        invariant ut == Entries(Rows(), nRows, ps)
      {
        var row := RowTail(i);
        assert all == ps + RowRest(i, i + 1, nRows) + RowPairs(i + 1, nRows);
        EntriesJoin(Rows(), nRows, ps, RowRest(i, i + 1, nRows));
        ut := ut + row;
        ps := ps + RowRest(i, i + 1, nRows);
      }
      assert all == ps;
    }

    method RowTail(i: nat) returns (row: seq<T>)
      requires Valid() && nRows == nCols && i < nRows
      ensures row == Entries(Rows(), nRows, RowRest(i, i + 1, nRows))
    {
      row := [];
      for j := i + 1 to nCols
        invariant |row| == j - i - 1 && forall k :: 0 <= k < |row| ==> row[k] == Rows()[i][i + 1 + k]
      {
        row := row + [Get(i, j)];
      }
    }

    /** The entries below the diagonal, row by row, which are those above it column by column. */
    method LowerTriangle() returns (lt: seq<T>)
      requires Valid() && nRows == nCols
      ensures lt == Entries(Rows(), nRows, PairsIn(nRows, UpperTriangleCols))
      ensures |lt| == nRows * (nRows - 1) / 2
      ensures forall i: nat, j: nat :: j < i < nRows ==>
        0 <= ColAt(i, j) < |lt| && lt[ColAt(i, j)] == Rows()[i][j]
    {
      TrianglePositions();
      lt := [];
      ghost var ps: seq<(nat, nat)> := [];
      for i := 0 to nCols
        invariant ps == ColPairs(i)
        invariant forall k :: 0 <= k < |ps| ==> ps[k].0 < nRows && ps[k].1 < nRows
        invariant lt == Entries(Rows(), nRows, ps)
      {
        for j := 0 to i
          invariant ps == ColPairs(i) + seq(j, (k: nat) => (i as nat, k))
          invariant forall k :: 0 <= k < |ps| ==> ps[k].0 < nRows && ps[k].1 < nRows
          invariant lt == Entries(Rows(), nRows, ps)
        {
          lt := lt + [Get(i, j)];
          ps := ps + [(i, j)];
        }
      }
    }
  }

  /** The pairs of an n-vertex string, all of them below n. */
  ghost function PairsIn(n: nat, ix: Indexing): (ps: seq<(nat, nat)>)
    ensures ps == Pairs(n, ix)
    ensures forall k :: 0 <= k < |ps| ==> ps[k].0 < n && ps[k].1 < n && ps[k].0 != ps[k].1
  {
    PairsPairing(n, ix);
    Pairs(n, ix)
  }
}
