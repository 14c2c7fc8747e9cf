/**
 Moving rows between carriers and device passes: the reordering around the scans of
 `interpolate_band_operator` and `grid_moments`.
 */
module Carriers {
  import opened Indices

  /** The entry of s.reshape(rows, cols) at row r, column c. */
  function Entry<T>(s: seq<T>, rows: nat, cols: nat, r: nat, c: nat): (x: T)
    requires |s| == rows * cols && r < rows && c < cols
    ensures Flat(r, cols, c) < |s| && x == s[Flat(r, cols, c)]
  {
    InTable(r, c, rows, cols);
    s[Flat(r, cols, c)]
  }

  /** Row r of s.reshape(rows, cols). */
  function RowOf<T>(s: seq<T>, rows: nat, cols: nat, r: nat): (row: seq<T>)
    requires |s| == rows * cols && r < rows
    ensures |row| == cols
    ensures forall c {:trigger row[c]} :: 0 <= c < cols ==> row[c] == Entry(s, rows, cols, r, c)
  {
    seq(cols, c requires 0 <= c < cols => Entry(s, rows, cols, r, c))
  }

  /** s.reshape(rows, cols), row-major. */
  function Reshape<T>(s: seq<T>, rows: nat, cols: nat): (m: seq<seq<T>>)
    requires |s| == rows * cols
    ensures |m| == rows && forall r :: 0 <= r < rows ==> m[r] == RowOf(s, rows, cols, r)
  {
    seq(rows, r requires 0 <= r < rows => RowOf(s, rows, cols, r))
  }

  predicate Rectangle<T>(m: seq<seq<T>>, rows: nat, cols: nat) {
    |m| == rows && forall r :: 0 <= r < rows ==> |m[r]| == cols
  }

  function SwapAxes<T>(m: seq<seq<T>>, rows: nat, cols: nat): (t: seq<seq<T>>)
    requires Rectangle(m, rows, cols)
    ensures Rectangle(t, cols, rows)
    ensures forall r, c {:trigger t[c][r]} :: 0 <= r < rows && 0 <= c < cols ==> t[c][r] == m[r][c]
  {
    seq(cols, c requires 0 <= c < cols => seq(rows, r requires 0 <= r < rows => m[r][c]))
  }

  /** The entry at row-major position i. */
  function Cell<T>(m: seq<seq<T>>, rows: nat, cols: nat, i: nat): (x: T)
    requires Rectangle(m, rows, cols) && i < rows * cols
    ensures cols > 0 && i / cols < rows && x == m[i / cols][i % cols]
  {
    Decode(i, rows, cols);
    m[i / cols][i % cols]
  }

  /** m.reshape(-1), row-major. */
  function Flatten<T>(m: seq<seq<T>>, rows: nat, cols: nat): (s: seq<T>)
    requires Rectangle(m, rows, cols)
    ensures |s| == rows * cols
    ensures forall i {:trigger s[i]} :: 0 <= i < |s| ==> s[i] == Cell(m, rows, cols, i)
  {
    seq(rows * cols, i requires 0 <= i < rows * cols => Cell(m, rows, cols, i))
  }

  // ---------------------------------------------------------------- one q per device and pass

  /** Pass p takes row d * nPass + p on device d. */
  function ToPasses<T>(s: seq<T>, devices: nat, nPass: nat): (passes: seq<seq<T>>)
    requires |s| == devices * nPass
    ensures Rectangle(passes, nPass, devices)
  {
    SwapAxes(Reshape(s, devices, nPass), devices, nPass)
  }

  function FromPasses<T>(passes: seq<seq<T>>, devices: nat, nPass: nat): (s: seq<T>)
    requires Rectangle(passes, nPass, devices)
    ensures |s| == devices * nPass
  {
    Flatten(SwapAxes(passes, nPass, devices), devices, nPass)
  }

  /** The scan: every pass maps its rows on all devices. */
  function Scan<Q, V, R>(one: (Q, V) -> R, q: seq<seq<Q>>, c: seq<seq<V>>, nPass: nat, devices: nat): (out: seq<seq<R>>)
    requires Rectangle(q, nPass, devices) && Rectangle(c, nPass, devices)
    ensures Rectangle(out, nPass, devices)
    ensures forall p, d {:trigger out[p][d]} :: 0 <= p < nPass && 0 <= d < devices ==> out[p][d] == one(q[p][d], c[p][d])
  {
    seq(nPass, p requires 0 <= p < nPass => seq(devices, d requires 0 <= d < devices => one(q[p][d], c[p][d])))
  }

  function Rows<Q, V, R>(one: (Q, V) -> R, q: seq<Q>, c: seq<V>, devices: nat, nPass: nat): (out: seq<R>)
    requires |q| == |c| == devices * nPass
    ensures |out| == devices * nPass
  {
    FromPasses(Scan(one, ToPasses(q, devices, nPass), ToPasses(c, devices, nPass), nPass, devices), devices, nPass)
  }

  /** Carrier row i runs as pass i mod nPass on device i div nPass. */
  lemma PassOfRow<T>(s: seq<T>, devices: nat, nPass: nat, i: nat)
    requires |s| == devices * nPass && i < |s|
    ensures nPass > 0 && i / nPass < devices && ToPasses(s, devices, nPass)[i % nPass][i / nPass] == s[i]
  {
    Decode(i, devices, nPass);
  }

  /** The reorderings cancel: output row i comes from q row i and coefficient row i alone. */
  lemma RowsStayTogether<Q, V, R>(one: (Q, V) -> R, q: seq<Q>, c: seq<V>, devices: nat, nPass: nat, i: nat)
    requires |q| == |c| == devices * nPass && i < |q|
    ensures Rows(one, q, c, devices, nPass)[i] == one(q[i], c[i])
  {
    Decode(i, devices, nPass);
    PassOfRow(q, devices, nPass, i);
    PassOfRow(c, devices, nPass, i);
  }

  datatype Outcome<T> = Matrices(values: T) | DoesNotCover

  /**
   The operator on the path, one scan per component, stacked with the component as the
   second axis.  `one(a, q, c)` is the matrix of component a at q in the basis c.
   */
  method InterpolateBandOperator<Q, V, R>(components: nat, one: nat -> ((Q, V) -> R), path: seq<Q>, zero: Q,
                                          coefficients: seq<V>, devices: nat) returns (r: Outcome<seq<seq<R>>>)
    requires devices > 0
    ensures r.DoesNotCover? <==> |coefficients| % devices != 0 || |path| > |coefficients|
    ensures r.Matrices? ==> |r.values| == |coefficients|
    ensures r.Matrices? ==> forall i, a {:trigger r.values[i][a]} :: 0 <= i < |coefficients| && 0 <= a < components ==>
      |r.values[i]| == components && r.values[i][a] == one(a)(if i < |path| then path[i] else zero, coefficients[i])
  {
    if |coefficients| % devices != 0 || |path| > |coefficients| {
      return DoesNotCover;
    }
    var nPass := |coefficients| / devices;
    assert |coefficients| == devices * nPass;
    var table := new Q[|coefficients|](_ => zero);
    forall i | 0 <= i < |path| {
      table[i] := path[i];
    }
    var q := table[..];
    var parts: seq<seq<R>> := [];
    for a := 0 to components
      invariant |parts| == a
      invariant forall b :: 0 <= b < a ==> |parts[b]| == |coefficients|
      invariant forall b, i {:trigger parts[b][i]} :: 0 <= b < a && 0 <= i < |coefficients| ==>
        parts[b][i] == one(b)(q[i], coefficients[i])
    {
      var part := Rows(one(a), q, coefficients, devices, nPass);
      forall i | 0 <= i < |coefficients|
        ensures part[i] == one(a)(q[i], coefficients[i])
      {
        RowsStayTogether(one(a), q, coefficients, devices, nPass, i);
      }
      parts := parts + [part];
    }
    var stacked := SwapAxes(parts, components, |coefficients|);
    return Matrices(stacked);
  }

  // ---------------------------------------------------------------- planes of a uniform grid

  datatype Q3 = Q3(x: real, y: real, z: real)

  function Fraction(i: nat, n: nat): real
    requires n > 0
  {
    i as real / n as real
  }

  /** The q of grid point (i, j, z). */
  function GridPoint(i: nat, nx: nat, j: nat, ny: nat, z: nat, nz: nat): Q3
    requires i < nx && j < ny && z < nz
  {
    Q3(Fraction(i, nx), Fraction(j, ny), Fraction(z, nz))
  }

  /** q has the coordinates i / nx, j / ny and z / nz. */
  predicate AtFractions(q: Q3, i: nat, nx: nat, j: nat, ny: nat, z: nat, nz: nat) {
    q.x * nx as real == i as real && q.y * ny as real == j as real && q.z * nz as real == z as real
  }

  lemma FractionTimes(i: nat, n: nat, x: real)
    requires n > 0
    ensures x * n as real == i as real <==> x == Fraction(i, n)
  {
    var m := n as real;
    assert Fraction(i, n) * m == i as real;
    assert (x - Fraction(i, n)) * m == x * m - Fraction(i, n) * m;
  }

  lemma GridPointIs(q: Q3, i: nat, nx: nat, j: nat, ny: nat, z: nat, nz: nat)
    requires i < nx && j < ny && z < nz
    ensures AtFractions(q, i, nx, j, ny, z, nz) <==> q == GridPoint(i, nx, j, ny, z, nz)
  {
    FractionTimes(i, nx, q.x);
    FractionTimes(j, ny, q.y);
    FractionTimes(z, nz, q.z);
    hide Fraction;
  }

  /** A row of plane z: its grid point, or zero past the last one. */
  function PlaneRow(r: nat, nx: nat, ny: nat, z: nat, nz: nat): (q: Q3)
    requires z < nz
    ensures r < nx * ny ==> ny > 0 && r / ny < nx && q == GridPoint(r / ny, nx, r % ny, ny, z, nz)
  {
    if r < nx * ny then
      Decode(r, nx, ny);
      GridPoint(r / ny, nx, r % ny, ny, z, nz)
    else Q3(0.0, 0.0, 0.0)
  }

  /** Plane z of the q table: row i * ny + j, then zero rows up to the carrier. */
  function Plane(nx: nat, ny: nat, z: nat, nz: nat, carrier: nat): (q: seq<Q3>)
    requires nx * ny <= carrier && z < nz
    ensures |q| == carrier
    ensures forall r {:trigger q[r]} :: 0 <= r < nx * ny ==>
      ny > 0 && r / ny < nx && q[r] == GridPoint(r / ny, nx, r % ny, ny, z, nz)
  {
    seq(carrier, r requires 0 <= r < carrier => PlaneRow(r, nx, ny, z, nz))
  }

  /** One scan step solves every row of a plane, padding included. */
  function SolvePlane<R>(solve: Q3 -> R, q: seq<Q3>): (e: seq<R>)
    ensures |e| == |q| && forall r :: 0 <= r < |q| ==> e[r] == solve(q[r])
  {
    seq(|q|, r requires 0 <= r < |q| => solve(q[r]))
  }

  /** The planes cut to their live rows and put in C order over (x, y, z). */
  function GridMoments<R>(solve: Q3 -> R, nx: nat, ny: nat, nz: nat, carrier: nat): (e: seq<R>)
    requires nx * ny <= carrier
    ensures |e| == nx * ny * nz
  {
    var planes := seq(nz, z requires 0 <= z < nz => SolvePlane(solve, Plane(nx, ny, z, nz, carrier))[..nx * ny]);
    Flatten(SwapAxes(planes, nz, nx * ny), nx * ny, nz)
  }

  /** Row (i * ny + j) * nz + z is the point (i, j, z), and there is one row per point. */
  lemma MomentsInGridOrder<R>(solve: Q3 -> R, nx: nat, ny: nat, nz: nat, carrier: nat, i: nat, j: nat, z: nat)
    requires nx * ny <= carrier && i < nx && j < ny && z < nz
    ensures Flat(Flat(i, ny, j), nz, z) < |GridMoments(solve, nx, ny, nz, carrier)|
    ensures GridMoments(solve, nx, ny, nz, carrier)[Flat(Flat(i, ny, j), nz, z)] == solve(GridPoint(i, nx, j, ny, z, nz))
  {
    InTable(i, j, nx, ny);
    InTable(Flat(i, ny, j), z, nx * ny, nz);
    DivMod(Flat(i, ny, j), nz, z);
    DivMod(i, ny, j);
  }

  /** Row (i * ny + j) * nz + z of the moments is the solve at q = (i / nx, j / ny, z / nz). */
  lemma MomentsAtFractions<R>(solve: Q3 -> R, nx: nat, ny: nat, nz: nat, carrier: nat, i: nat, j: nat, z: nat, q: Q3)
    requires nx * ny <= carrier && i < nx && j < ny && z < nz && AtFractions(q, i, nx, j, ny, z, nz)
    ensures Flat(Flat(i, ny, j), nz, z) < |GridMoments(solve, nx, ny, nz, carrier)|
    ensures GridMoments(solve, nx, ny, nz, carrier)[Flat(Flat(i, ny, j), nz, z)] == solve(q)
  {
    hide AtFractions, GridPoint, GridMoments;
    GridPointIs(q, i, nx, j, ny, z, nz);
    MomentsInGridOrder(solve, nx, ny, nz, carrier, i, j, z);
  }

  /** Conversely every row is a live grid point: no padding row survives. */
  lemma EveryRowIsAGridPoint<R>(solve: Q3 -> R, nx: nat, ny: nat, nz: nat, carrier: nat, k: nat)
    requires nx * ny <= carrier && k < nx * ny * nz
    ensures nz > 0 && ny > 0 && k / nz / ny < nx
    ensures GridMoments(solve, nx, ny, nz, carrier)[k] == solve(GridPoint(k / nz / ny, nx, k / nz % ny, ny, k % nz, nz))
  {
    Decode(k, nx * ny, nz);
    Decode(k / nz, nx, ny);
    MomentsInGridOrder(solve, nx, ny, nz, carrier, k / nz / ny, k / nz % ny, k % nz);
  }
}
