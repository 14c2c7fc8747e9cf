/**
 The Haydock route from seed to spectrum: the recursion's coefficients, not-a-number ones included,
 go through the continued fraction.
 */
module HaydockRun {
  import opened Complex
  import opened Vectors
  import opened HaydockKrylov
  import opened HaydockRecursion
  import opened HaydockResolvent
  import Spectrum = HaydockSpectrum
  import opened Wrappers

  lemma LastIsRead(alpha: seq<Num>, beta: seq<Num>)
    requires |alpha| == |beta| && 1 <= |alpha| && Spectrum.NumbersFrom(alpha, beta, 0)
    ensures alpha[|alpha| - 1].Some?
  {
    assert Spectrum.NumberAt(alpha, beta, |alpha| - 1);
  }

  /**
   With a broadening the spectrum of a run holds numbers exactly when the seed and its images under
   the powers of H below the number of steps are linearly independent.
   */
  lemma SpectrumIffIndependent(row: Row, steps: nat, omega: real, eta: real, norm: real, pi: real, cells: real)
    requires row.Valid() && steps > 0 && eta != 0.0 && pi != 0.0 && cells != 0.0
    ensures var (alphas, betas) := row.Scan(row.Start(), steps);
      Spectrum.Entry(omega, eta, alphas, betas, norm, pi, cells).Some? <==> Independent(row, steps)
  {
    hide Row.Scan, Row.At, Row.Start, Spectrum.Entry, Spectrum.Regular, Independent;
    var (alphas, betas) := row.Scan(row.Start(), steps);
    Spectrum.EntryIffNumbers(omega, eta, alphas, betas, norm, pi, cells);
    RunIsNumericIffIndependent(row, steps);
    if Spectrum.NumbersFrom(alphas, betas, 0) {
      LastIsRead(alphas, betas);
      forall k | 0 <= k < steps
        ensures alphas[k].Some? && betas[k].Some?
      {
        NumbersIffLive(row, steps, steps - 1);
        LiveBefore(row, k, steps - 1);
        NumbersIffLive(row, steps, k);
      }
    }
  }

  /** Times the cells, e is -16 pi times im. */
  predicate ScaledTo(e: Num, cells: real, pi: real, im: real) {
    e.Some? && e.value * cells == -16.0 * pi * im
  }

  lemma EntryIsScaled(row: Row, m: nat, omega: real, eta: real, pi: real, cells: real, v: Vec)
    requires TerminatesAt(row, m) && eta != 0.0 && pi > 0.0 && cells != 0.0
    requires |v| == row.n && Shift(row, C(omega, eta), v) == row.seed
    ensures var (alphas, betas) := row.Scan(row.Start(), m);
      ScaledTo(Spectrum.Entry(omega, eta, alphas, betas, row.Norm(row.seed), pi, cells), cells, pi, Inner(row.seed, v).im)
  {
    assert row.Valid() && 1 <= m;
    hide *;
    AllNumbers(row, m);
    TerminatedFractionIsExact(row, m, C(omega, eta));
    var g := Spectrum.Resolvent(Alphas(row, m), Betas(row, m), C(omega, eta));
    assert Inner(row.seed, v) == Scale(Square(row.Norm(row.seed)), g.value);
    EntryIs(row, m, omega, eta, row.Norm(row.seed), pi, cells);
    EntryOfNumber(g.value, row.Norm(row.seed), pi, cells);
  }

  /**
   The spectrum of a run that ends exactly at its termination is the exact one of H: times the
   cells every entry is -16 pi times the imaginary part of <d, v>, for any solution v of (z - H) v = d.
   */
  lemma SpectrumIsExact(row: Row, m: nat, omega: real, eta: real, pi: real, cells: real, v: Vec)
    requires TerminatesAt(row, m) && eta != 0.0 && pi > 0.0 && cells != 0.0
    requires |v| == row.n && Shift(row, C(omega, eta), v) == row.seed
    ensures var (alphas, betas) := row.Scan(row.Start(), m);
      var e := Spectrum.Entry(omega, eta, alphas, betas, row.Norm(row.seed), pi, cells);
      e.Some? && e.value * cells == -16.0 * pi * Inner(row.seed, v).im
  {
    hide Row.Scan, Row.At, Row.Start, Row.Norm, Inner, Spectrum.Entry, Shift;
    EntryIsScaled(row, m, omega, eta, pi, cells, v);
  }

  lemma EntryIs(row: Row, m: nat, omega: real, eta: real, norm: real, pi: real, cells: real)
    requires TerminatesAt(row, m) && pi != 0.0 && cells != 0.0
    requires Spectrum.NumbersFrom(row.Scan(row.Start(), m).0, row.Scan(row.Start(), m).1, 0)
    ensures var (alphas, betas) := row.Scan(row.Start(), m);
      Spectrum.Entry(omega, eta, alphas, betas, norm, pi, cells)
      == Spectrum.Epsilon2(Spectrum.Resolvent(Alphas(row, m), Betas(row, m), C(omega, eta)), norm, Spectrum.Prefactor(pi, cells), pi)
  {
    hide Row.Scan, Row.At, Row.Start, Spectrum.Resolvent, Spectrum.Epsilon2, Spectrum.Prefactor, Spectrum.NumbersFrom;
  }

  lemma AllNumbers(row: Row, m: nat)
    requires TerminatesAt(row, m)
    ensures Spectrum.NumbersFrom(row.Scan(row.Start(), m).0, row.Scan(row.Start(), m).1, 0)
  {
    hide Row.Scan, Row.At, Row.Start, Alphas, Betas;
    forall k | 0 <= k < m
      ensures Spectrum.NumberAt(row.Scan(row.Start(), m).0, row.Scan(row.Start(), m).1, k)
    {
      Coefficients(row, m, k);
      if k > 0 {
        Coefficients(row, m, k - 1);
      }
    }
  }

  lemma EntryOfNumber(g: C, norm: real, pi: real, cells: real)
    requires pi > 0.0 && cells != 0.0
    ensures ScaledTo(Spectrum.Epsilon2(Some(g), norm, Spectrum.Prefactor(pi, cells), pi), cells, pi, Scale(Square(norm), g).im)
  {
    hide Square;
    Spectrum.Scaled(pi, cells, Square(norm), g.im);
  }
}
