/**
 Blocked scans over a carried buffer whose last block is clamped onto its neighbour: the
 coarse-to-fine densifier and the long-range update.
 */
module Densifier {
  import opened Complex
  import opened Indices

  // ---------------------------------------------------------------- tile arithmetic

  const TILE_BYTES: nat := 0x4000_0000

  function Min(a: int, b: int): int { if a <= b then a else b }

  function Max(a: int, b: int): int { if a >= b then a else b }

  /** Units per tile: at least one (of a nonempty axis) and at most all. */
  function TileUnits(perUnit: nat, units: nat): (t: nat)
    ensures t <= units && (units > 0 ==> t >= 1)
    ensures t > 1 ==> t * perUnit <= TILE_BYTES
  {
    var fit := TILE_BYTES / Max(perUnit, 1);
    assert fit * Max(perUnit, 1) <= TILE_BYTES;
    var t := Max(Min(1, units), Min(units, fit));
    assert t > 1 ==> t * perUnit <= TILE_BYTES by {
      if t > 1 {
        MulMonotone(t, fit, Max(perUnit, 1));
        assert t * Max(perUnit, 1) >= t * perUnit;
      }
    }
    t
  }

  /** No larger count fits: one unit more is past the axis or past the tile's bytes. */
  lemma TileIsLargest(perUnit: nat, units: nat, t: nat)
    requires TileUnits(perUnit, units) < t <= units
    ensures t * Max(perUnit, 1) > TILE_BYTES
  {
    var size := Max(perUnit, 1);
    var fit := TILE_BYTES / size;
    assert TILE_BYTES < (fit + 1) * size;
    MulMonotone(fit + 1, t, size);
  }

  /** -(-a // b): division rounded up. */
  function CeilDiv(a: nat, b: nat): (c: int)
    requires b > 0
    ensures c * b >= a && (c - 1) * b < a && c >= 0
  {
    var q := (0 - a) / b;
    assert 0 - a == q * b + (0 - a) % b;
    -q
  }

  lemma CeilDivLeast(a: nat, b: nat, k: nat)
    requires b > 0 && a <= k * b
    ensures CeilDiv(a, b) <= k
  {
    if CeilDiv(a, b) > k {
      MulMonotone(k, CeilDiv(a, b) - 1, b);
    }
  }

  /** Tile heights and widths, and how many tiles each axis has. */
  datatype Plan = Plan(bm: int, bn: int, nm: int, nn: int)

  function Balance(nMu: nat, nNu: nat, cells: nat): (p: Plan)
    requires nMu > 0 && nNu > 0 && 1 <= cells <= nMu * nNu
    ensures p.nm > 0 && p.nn > 0
  {
    var bn := Min(nNu, cells);
    var bm := Min(nMu, Max(1, cells / bn));
    var nm, nn := CeilDiv(nMu, bm), CeilDiv(nNu, bn);
    Plan(CeilDiv(nMu, nm), CeilDiv(nNu, nn), nm, nn)
  }

  /** The balanced tile stays within the budget and inside the face, and the tiles reach its end. */
  lemma BalancedTilesFit(nMu: nat, nNu: nat, cells: nat)
    requires nMu > 0 && nNu > 0 && 1 <= cells <= nMu * nNu
    ensures var p := Balance(nMu, nNu, cells);
      && 1 <= p.bm <= nMu && 1 <= p.bn <= nNu && p.bm * p.bn <= cells
      && p.nm * p.bm >= nMu && p.nn * p.bn >= nNu
  {
    var bn := Min(nNu, cells);
    var bm := Min(nMu, Max(1, cells / bn));
    var p := Balance(nMu, nNu, cells);
    assert bm * bn <= cells by {
      AtMostQuotient(cells, bn);
      MulMonotone(bm, cells / bn, bn);
    }
    Evened(nMu, bm);
    Evened(nNu, bn);
    MulMonotone(p.bm, bm, p.bn);
    MulMonotone(p.bn, bn, bm);
  }

  lemma AtMostQuotient(cells: nat, bn: nat)
    requires 1 <= bn <= cells
    ensures cells / bn >= 1 && (cells / bn) * bn <= cells
  {
  }

  /** Evening out never makes a tile larger. */
  lemma Evened(n: nat, b: nat)
    requires 1 <= b <= n
    ensures var k := CeilDiv(n, b); k > 0 && 1 <= CeilDiv(n, k) <= b && k * CeilDiv(n, k) >= n
  {
    var k := CeilDiv(n, b);
    assert k > 0;
    CeilDivLeast(n, k, b);
  }

  /** The clamped start of block i. */
  function Start(i: nat, b: nat, n: nat): (s: nat)
    requires b <= n
    ensures s + b <= n
  {
    Min(i * b, n - b)
  }

  /** Block x div b holds x, clamped or not. */
  lemma BlockHolds(x: nat, b: nat, n: nat, blocks: nat)
    requires 0 < b <= n && x < n && blocks * b >= n
    ensures x / b < blocks && Start(x / b, b, n) <= x < Start(x / b, b, n) + b
  {
    var i := x / b;
    assert x == i * b + x % b;
    if i >= blocks {
      MulMonotone(blocks, i, b);
    }
  }

  // ---------------------------------------------------------------- the densifier

  /** The coarse values of pair nu in a row that holds nk values per pair. */
  function PairOf<X>(row: seq<X>, nk: nat, nu: nat): (pair: seq<X>)
    requires (nu + 1) * nk <= |row|
  {
    MulMonotone(nu, nu + 1, nk);
    row[nu * nk..(nu + 1) * nk]
  }

  /** The pair b of the slice that starts at pair n0 is pair n0 + b of the row. */
  lemma PairOfSlice<X>(row: seq<X>, nk: nat, n0: nat, bn: nat, b: nat)
    requires b < bn && (n0 + bn) * nk <= |row|
    ensures n0 * nk <= (n0 + bn) * nk && (b + 1) * nk <= bn * nk && (n0 + b + 1) * nk <= |row|
    ensures PairOf(row[n0 * nk..(n0 + bn) * nk], nk, b) == PairOf(row, nk, n0 + b)
  {
    MulMonotone(n0, n0 + bn, nk);
    MulMonotone(b + 1, bn, nk);
    MulMonotone(n0 + b + 1, n0 + bn, nk);
    assert (n0 + bn) * nk == n0 * nk + bn * nk;
    assert (n0 + b) * nk == n0 * nk + b * nk;
    assert (n0 + b + 1) * nk == n0 * nk + (b + 1) * nk;
    MulMonotone(b, b + 1, nk);
  }

  /** The nk values of pair nu. */
  ghost predicate IsPair<X>(row: seq<X>, nk: nat, nu: nat, pair: seq<X>) {
    |pair| == nk && forall k :: 0 <= k < nk ==> 0 <= nu * nk + k < |row| && pair[k] == row[nu * nk + k]
  }

  lemma PairIs<X>(row: seq<X>, nk: nat, nu: nat, pair: seq<X>)
    requires (nu + 1) * nk <= |row|
    ensures IsPair(row, nk, nu, pair) <==> pair == PairOf(row, nk, nu)
  {
    MulMonotone(nu, nu + 1, nk);
    assert (nu + 1) * nk == nu * nk + nk;
  }

  /** The local coarse face: one row of nNu * nk values per mu, and the centroid positions. */
  datatype Face<X, P> = Face(rows: seq<seq<X>>, nk: nat, mu: seq<P>, nu: seq<P>) {
    ghost predicate Valid() {
      |rows| == |mu| && |mu| > 0 && |nu| > 0 && forall m :: 0 <= m < |rows| ==> |rows[m]| == |nu| * nk
    }

    /** Interpolating one pair by itself. */
    function Cell<F>(embed: (seq<X>, P, P) -> F, m: nat, n: nat): F
      requires Valid() && m < |mu| && n < |nu|
    {
      MulMonotone(n + 1, |nu|, nk);
      embed(PairOf(rows[m], nk, n), mu[m], nu[n])
    }
  }

  /** A cell of the face interpolates the pair's values and nothing else. */
  lemma CellIs<X, P, F>(face: Face<X, P>, embed: (seq<X>, P, P) -> F, m: nat, n: nat, pair: seq<X>)
    requires face.Valid() && m < |face.mu| && n < |face.nu| && IsPair(face.rows[m], face.nk, n, pair)
    ensures face.Cell(embed, m, n) == embed(pair, face.mu[m], face.nu[n])
  {
    MulMonotone(n + 1, |face.nu|, face.nk);
    PairIs(face.rows[m], face.nk, n, pair);
  }

  /** Where tile i starts: tiles are numbered row by row. */
  function Corner(p: Plan, nMu: nat, nNu: nat, i: nat): (c: (nat, nat))
    requires 0 < p.bm <= nMu && 0 < p.bn <= nNu && p.nn > 0
    ensures c.0 + p.bm <= nMu && c.1 + p.bn <= nNu
  {
    (Start(i / p.nn, p.bm, nMu), Start(i % p.nn, p.bn, nNu))
  }

  ghost predicate InTile(p: Plan, nMu: nat, nNu: nat, i: nat, m: nat, n: nat)
    requires 0 < p.bm <= nMu && 0 < p.bn <= nNu && p.nn > 0
  {
    var (m0, n0) := Corner(p, nMu, nNu, i);
    m0 <= m < m0 + p.bm && n0 <= n < n0 + p.bn
  }

  lemma EveryCellHasATile(p: Plan, nMu: nat, nNu: nat, m: nat, n: nat) returns (i: nat)
    requires 0 < p.bm <= nMu && 0 < p.bn <= nNu && p.nm > 0 && p.nn > 0
    requires p.nm * p.bm >= nMu && p.nn * p.bn >= nNu && m < nMu && n < nNu
    ensures i < p.nm * p.nn && InTile(p, nMu, nNu, i, m, n)
  {
    BlockHolds(m, p.bm, nMu, p.nm);
    BlockHolds(n, p.bn, nNu, p.nn);
    i := Flat(m / p.bm, p.nn, n / p.bn);
    InTable(m / p.bm, n / p.bn, p.nm, p.nn);
    DivMod(m / p.bm, p.nn, n / p.bn);
  }

  /** One row of a tile: cut it from the flattened row and interpolate its pairs. */
  method TileRow<X, P, F>(face: Face<X, P>, embed: (seq<X>, P, P) -> F, m: nat, n0: nat, bn: nat) returns (line: seq<F>)
    requires face.Valid() && m < |face.mu| && n0 + bn <= |face.nu|
    ensures |line| == bn && forall b :: 0 <= b < bn ==> line[b] == face.Cell(embed, m, n0 + b)
  {
    var row := face.rows[m];
    MulMonotone(n0, n0 + bn, face.nk);
    MulMonotone(n0 + bn, |face.nu|, face.nk);
    var block := row[n0 * face.nk..(n0 + bn) * face.nk];
    assert |block| == bn * face.nk by {
      assert (n0 + bn) * face.nk == n0 * face.nk + bn * face.nk;
    }
    line := [];
    for b := 0 to bn
      invariant |line| == b
      invariant forall c :: 0 <= c < b ==> line[c] == face.Cell(embed, m, n0 + c)
    {
      PairOfSlice(row, face.nk, n0, bn, b);
      line := line + [embed(PairOf(block, face.nk, b), face.mu[m], face.nu[n0 + b])];
    }
  }

  /** One tile, row by row. */
  method TileResult<X, P, F>(face: Face<X, P>, embed: (seq<X>, P, P) -> F, m0: nat, n0: nat, bm: nat, bn: nat)
    returns (tile: seq<seq<F>>)
    requires face.Valid() && m0 + bm <= |face.mu| && n0 + bn <= |face.nu|
    ensures |tile| == bm && forall a :: 0 <= a < bm ==> |tile[a]| == bn
    ensures forall a, b {:trigger tile[a][b]} :: 0 <= a < bm && 0 <= b < bn ==> tile[a][b] == face.Cell(embed, m0 + a, n0 + b)
  {
    hide Face.Cell;
    tile := [];
    for a := 0 to bm
      invariant |tile| == a && forall c :: 0 <= c < a ==> |tile[c]| == bn
      invariant forall c, b {:trigger tile[c][b]} :: 0 <= c < a && 0 <= b < bn ==>
        tile[c][b] == face.Cell(embed, m0 + c, n0 + b)
    {
      var line := TileRow(face, embed, m0 + a, n0, bn);
      tile := tile + [line];
    }
  }

  /** Write a finished tile into the buffer. */
  method WriteTile<F>(acc: array2<F>, tile: seq<seq<F>>, m0: nat, n0: nat, bm: nat, bn: nat)
    requires m0 + bm <= acc.Length0 && n0 + bn <= acc.Length1
    requires |tile| == bm && forall a :: 0 <= a < bm ==> |tile[a]| == bn
    modifies acc
    ensures forall m, n :: 0 <= m < acc.Length0 && 0 <= n < acc.Length1 ==>
      acc[m, n] == if m0 <= m < m0 + bm && n0 <= n < n0 + bn then tile[m - m0][n - n0] else old(acc[m, n])
  {
    forall m, n | m0 <= m < m0 + bm && n0 <= n < n0 + bn {
      acc[m, n] := tile[m - m0][n - n0];
    }
  }

  /**
   The scan over tiles writes every completed tile into the carried buffer; overlapping
   rewrites included, the buffer ends as the cell-by-cell interpolation of the face.
   */
  method Densify<X, P, F(0)>(face: Face<X, P>, embed: (seq<X>, P, P) -> F, zero: F, perPair: nat) returns (acc: array2<F>)
    requires face.Valid()
    ensures fresh(acc) && acc.Length0 == |face.mu| && acc.Length1 == |face.nu|
    ensures forall m, n :: 0 <= m < |face.mu| && 0 <= n < |face.nu| ==> acc[m, n] == face.Cell(embed, m, n)
    ensures forall m, n, pair {:trigger IsPair(face.rows[m], face.nk, n, pair)} ::
      (0 <= m < |face.mu| && 0 <= n < |face.nu| && IsPair(face.rows[m], face.nk, n, pair)) ==>
      acc[m, n] == embed(pair, face.mu[m], face.nu[n])
  {
    var nMu, nNu := |face.mu|, |face.nu|;
    MulMonotone(1, nMu, nNu);
    var cells := TileUnits(perPair, nMu * nNu);
    var p := Balance(nMu, nNu, cells);
    BalancedTilesFit(nMu, nNu, cells);
    acc := new F[nMu, nNu]((_, _) => zero);
    MulMonotone(0, p.nm, p.nn);
    hide Face.Cell, Balance, CeilDiv, TileUnits, Corner, Face.Valid;
    var tiles := p.nm * p.nn;
    for i := 0 to tiles
      invariant forall j, m, n {:trigger InTile(p, nMu, nNu, j, m, n)} ::
        (0 <= j < i && 0 <= m < nMu && 0 <= n < nNu && InTile(p, nMu, nNu, j, m, n)) ==>
        acc[m, n] == face.Cell(embed, m, n)
    {
      var (m0, n0) := Corner(p, nMu, nNu, i);
      var tile := TileResult(face, embed, m0, n0, p.bm, p.bn);
      WriteTile(acc, tile, m0, n0, p.bm, p.bn);
    }
    forall m, n | 0 <= m < nMu && 0 <= n < nNu
      ensures acc[m, n] == face.Cell(embed, m, n)
    {
      var i := EveryCellHasATile(p, nMu, nNu, m, n);
    }
    forall m, n, pair | 0 <= m < nMu && 0 <= n < nNu && IsPair(face.rows[m], face.nk, n, pair)
      ensures acc[m, n] == embed(pair, face.mu[m], face.nu[n])
    {
      CellIs(face, embed, m, n, pair);
    }
  }

  // ---------------------------------------------------------------- the long-range update

  /** One q of the local face, all (mu, nu) cells in a row. */
  type Tile = seq<C>

  function Plus(a: Tile, sign: real, b: Tile): (r: Tile)
    requires |a| == |b|
    ensures |r| == |a|
  {
    seq(|a|, c requires 0 <= c < |a| => Add(a[c], Scale(sign, b[c])))
  }

  /** r is a with sign times b added, value by value. */
  ghost predicate Moved(a: Tile, sign: real, b: Tile, r: Tile) {
    && |a| == |b| == |r|
    && forall c :: 0 <= c < |a| ==>
         r[c].re == a[c].re + Product(sign, b[c].re) && r[c].im == a[c].im + Product(sign, b[c].im)
  }

  lemma PlusMoves(a: Tile, sign: real, b: Tile)
    requires |a| == |b|
    ensures Moved(a, sign, b, Plus(a, sign, b))
  {
  }

  lemma PlusZero(a: Tile, sign: real)
    ensures Plus(a, sign, seq(|a|, _ => ZERO)) == a
  {
    ScaleDelta(sign);
  }

  ghost predicate Shaped(w: seq<Tile>, term: nat -> Tile, size: nat) {
    && (forall q :: 0 <= q < |w| ==> |w[q]| == size)
    && (forall q :: 0 <= q < |w| ==> |term(q)| == size)
  }

  /** One block of `bq` positions from q0: the first `masked` terms are zeroed. */
  method AddBlock(w: array<Tile>, term: nat -> Tile, sign: real, size: nat, q0: nat, bq: nat, masked: nat)
    requires Shaped(w[..], term, size) && q0 + bq <= w.Length && masked <= bq
    modifies w
    ensures forall q :: 0 <= q < w.Length ==> |old(w[q])| == |term(q)| == size
    ensures forall q :: 0 <= q < w.Length ==>
      w[q] == if q0 + masked <= q < q0 + bq then Plus(old(w[q]), sign, term(q)) else old(w[q])
  {
    assert forall q :: 0 <= q < w.Length ==> |w[..][q]| == |term(q)| == size;
    var t := seq(bq, j requires 0 <= j < bq => if j >= masked then term(q0 + j) else seq(size, _ => ZERO));
    forall q | q0 <= q < q0 + masked
      ensures Plus(w[q], sign, t[q - q0]) == w[q]
    {
      PlusZero(w[q], sign);
    }
    forall q | q0 <= q < q0 + bq {
      w[q] := Plus(w[q], sign, t[q - q0]);
    }
  }

  /**
   Add sign * term(q) to every q of the donated buffer exactly once, in blocks.  A clamped
   last block starts inside its neighbour and masks the positions they share.
   */
  method AddRankLR(w: array<Tile>, term: nat -> Tile, sign: real, size: nat)
    requires Shaped(w[..], term, size)
    modifies w
    ensures forall q :: 0 <= q < w.Length ==> |old(w[q])| == |term(q)| && w[q] == Plus(old(w[q]), sign, term(q))
    ensures forall q :: 0 <= q < w.Length ==> Moved(old(w[q]), sign, term(q), w[q])
  {
    hide Moved;
    var nq := w.Length;
    forall q | 0 <= q < nq
      ensures |w[q]| == |term(q)| && Moved(w[q], sign, term(q), Plus(w[q], sign, term(q)))
    {
      assert |w[..][q]| == |term(q)| == size;
      PlusMoves(w[q], sign, term(q));
    }
    var bq := TileUnits(2 * 16 * size, nq);
    assert forall q :: 0 <= q < nq ==> |w[..][q]| == |term(q)| == size;
    if bq == nq {
      forall q | 0 <= q < nq {
        w[q] := Plus(w[q], sign, term(q));
      }
      return;
    }
    hide TileUnits, Plus;
    var blocks := CeilDiv(nq, bq);
    for i := 0 to blocks
      invariant Shaped(w[..], term, size)
      invariant forall q :: 0 <= q < nq ==> w[q] == if q < i * bq then Plus(old(w[q]), sign, term(q)) else old(w[q])
    {
      var q0 := Start(i, bq, nq);
      assert i * bq - q0 < bq by {
        MulMonotone(i, blocks - 1, bq);
      }
      AddBlock(w, term, sign, size, q0, bq, i * bq - q0);
      assert (i + 1) * bq == i * bq + bq;
    }
  }

  /** Subtracting the terms and adding them back restores the face. */
  lemma SubtractThenAdd(w: Tile, t: Tile)
    requires |w| == |t|
    ensures Plus(Plus(w, -1.0, t), 1.0, t) == w
  {
  }

  /** A call with sign -1 and one with sign +1 on the same terms leave the buffer as it was. */
  method RemoveAndRestore(w: array<Tile>, term: nat -> Tile, size: nat)
    requires Shaped(w[..], term, size)
    modifies w
    ensures w[..] == old(w[..])
  {
    assert forall q :: 0 <= q < w.Length ==> |w[..][q]| == |term(q)| == size;
    AddRankLR(w, term, -1.0, size);
    AddRankLR(w, term, 1.0, size);
    forall q | 0 <= q < w.Length
      ensures w[q] == old(w[q])
    {
      SubtractThenAdd(old(w[q]), term(q));
    }
  }
}
