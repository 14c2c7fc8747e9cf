/** Row-major index arithmetic. */
module Indices {

  /** Row-major position of column `col` of row `row`, for `cols` columns. */
  function Flat(row: nat, cols: nat, col: nat): (i: nat)
    requires col < cols
    ensures row * cols <= i < (row + 1) * cols
  {
    row * cols + col
  }

  lemma DivMod(row: nat, cols: nat, col: nat)
    requires col < cols
    ensures Flat(row, cols, col) / cols == row && Flat(row, cols, col) % cols == col
  {
    var i := Flat(row, cols, col);
    var q, r := i / cols, i % cols;
    assert i == q * cols + r && 0 <= r < cols;
    if q < row {
      MulMonotone(q + 1, row, cols);
    } else if row < q {
      MulMonotone(row + 1, q, cols);
    }
  }

  /** A position inside a table decodes to a row and a column inside it. */
  lemma Decode(i: nat, rows: nat, cols: nat)
    requires i < rows * cols
    ensures cols > 0 && i / cols < rows && i % cols < cols && Flat(i / cols, cols, i % cols) == i
  {
    var q, r := i / cols, i % cols;
    assert i == q * cols + r;
    if q >= rows {
      MulMonotone(rows, q, cols);
    }
  }

  lemma Decompose(i: nat, rows: nat, cols: nat) returns (row: nat, col: nat)
    requires i < rows * cols
    ensures row < rows && col < cols && Flat(row, cols, col) == i
  {
    Decode(i, rows, cols);
    row, col := i / cols, i % cols;
  }

  lemma MulMonotone(a: nat, b: nat, c: nat)
    requires a <= b
    ensures a * c <= b * c
  {
  }

  lemma InTable(row: nat, col: nat, rows: nat, cols: nat)
    requires row < rows && col < cols
    ensures Flat(row, cols, col) < rows * cols
  {
    MulMonotone(row + 1, rows, cols);
  }

  lemma FlatInjective(row: nat, col: nat, row': nat, col': nat, cols: nat)
    requires col < cols && col' < cols && Flat(row, cols, col) == Flat(row', cols, col')
    ensures row == row' && col == col'
  {
    DivMod(row, cols, col);
    DivMod(row', cols, col');
  }

  /** Row-major position of (i, j, k) in a table with extents (any, nj, nk). */
  function Place(i: nat, j: nat, k: nat, nj: nat, nk: nat): nat
    requires j < nj && k < nk
  {
    InTable(j, k, nj, nk);
    Flat(i, nj * nk, Flat(j, nk, k))
  }

  lemma PlaceInside(i: nat, j: nat, k: nat, ni: nat, nj: nat, nk: nat)
    requires i < ni && j < nj && k < nk
    ensures Place(i, j, k, nj, nk) < ni * (nj * nk)
  {
    InTable(j, k, nj, nk);
    InTable(i, Flat(j, nk, k), ni, nj * nk);
  }

  lemma PlaceNested(i: nat, j: nat, k: nat, nj: nat, nk: nat)
    requires j < nj && k < nk
    ensures Place(i, j, k, nj, nk) == Flat(Flat(i, nj, j), nk, k)
  {
    InTable(j, k, nj, nk);
    assert i * (nj * nk) == (i * nj) * nk;
    assert (i * nj + j) * nk == (i * nj) * nk + j * nk;
  }

  /** A position of a table, taken apart. */
  datatype Triple = Triple(i: nat, j: nat, k: nat)

  function Split(t: nat, nj: nat, nk: nat): Triple
    requires nj > 0 && nk > 0
  {
    MulMonotone(1, nj, nk);
    Triple(t / (nj * nk), t / nk % nj, t % nk)
  }

  /** t div (nj nk), t div nk mod nj and t mod nk recover the triple. */
  lemma SplitPlace(i: nat, j: nat, k: nat, nj: nat, nk: nat)
    requires j < nj && k < nk
    ensures Split(Place(i, j, k, nj, nk), nj, nk) == Triple(i, j, k)
  {
    hide Flat;
    InTable(j, k, nj, nk);
    DivMod(i, nj * nk, Flat(j, nk, k));
    PlaceNested(i, j, k, nj, nk);
    DivMod(Flat(i, nj, j), nk, k);
    DivMod(i, nj, j);
  }

  /** Every position of the table splits into one triple inside it. */
  lemma SplitInside(t: nat, ni: nat, nj: nat, nk: nat)
    requires t < ni * (nj * nk)
    ensures nk > 0 && nj > 0
    ensures var x := Split(t, nj, nk); x.i < ni && x.j < nj && x.k < nk && Place(x.i, x.j, x.k, nj, nk) == t
  {
    hide Flat, Split;
    var i, rest := Decompose(t, ni, nj * nk);
    var j, k := Decompose(rest, nj, nk);
    SplitPlace(i, j, k, nj, nk);
  }

  /** The triple at position t. */
  function Unplace(t: nat, ni: nat, nj: nat, nk: nat): (x: Triple)
    requires t < ni * (nj * nk)
    ensures x.i < ni && x.j < nj && x.k < nk && Place(x.i, x.j, x.k, nj, nk) == t
  {
    SplitInside(t, ni, nj, nk);
    Split(t, nj, nk)
  }

  lemma UnplacePlace(i: nat, j: nat, k: nat, ni: nat, nj: nat, nk: nat)
    requires i < ni && j < nj && k < nk
    ensures Place(i, j, k, nj, nk) < ni * (nj * nk)
    ensures Unplace(Place(i, j, k, nj, nk), ni, nj, nk) == Triple(i, j, k)
  {
    PlaceInside(i, j, k, ni, nj, nk);
    SplitPlace(i, j, k, nj, nk);
  }
}
