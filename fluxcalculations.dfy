/** Integration of the 19-channel differential flux of the SSJ detector into a
    total energy or number flux, with per-entry NaN suppression and an optional
    uncertainty filter (ssjlatbin/fluxcalculations.py). */
module FluxCalculations {
  import opened Wrappers
  import opened Floats
  import Sequences

  type PosReal = r: real | r > 0.0 witness 1.0

  /** Centre energy (eV) of each channel, highest first. */
  const ChannelEnergies: seq<PosReal> :=
    [30000.0, 20400.0, 13900.0, 9450.0, 6460.0, 4400.0, 3000.0,
     2040.0, 1392.0, 949.0, 646.0, 440.0, 300.0, 204.0,
     139.0, 95.0, 65.0, 44.0, 30.0]

  const NumChannels: nat := 19

  /** A valid position in a channel vector. */
  type Channel = c: int | 0 <= c < 19

  /** `np.pi`, as a decimal. */
  const Pi: real := 3.141592653589793
  /** Joules per electron-volt, as the source writes it (1.6e-19). */
  const JoulesPerEv: real := 0.00000000000000000016
  /** cm^2 per m^2 (1e4). */
  const Cm2PerM2: real := 10000.0
  /** mW per W (1e3). */
  const MilliPerUnit: real := 1000.0

  datatype Mode = Energy | Number

  /** `_energy_or_number_check` together with the string comparison that selects the mode. */
  function ParseMode(s: string): (r: Result<Mode>)
    ensures r.Success? <==> s == "energy" || s == "number"
    ensures r.Failure? ==> r.error == ValueError
    ensures r.Success? ==> (r.value == Energy <==> s == "energy")
  {
    if s == "energy" then Success(Energy)
    else if s == "number" then Success(Number)
    else Failure(ValueError)
  }

  lemma ChannelEnergiesDecrease()
    ensures forall i :: 0 <= i < 18 ==> ChannelEnergies[i] > ChannelEnergies[i + 1]
  {
    forall i | 0 <= i < 18
      ensures ChannelEnergies[i] > ChannelEnergies[i + 1]
    {
      assert i == 0 || i == 1 || i == 2 || i == 3 || i == 4 || i == 5 || i == 6 || i == 7 || i == 8
          || i == 9 || i == 10 || i == 11 || i == 12 || i == 13 || i == 14 || i == 15 || i == 16 || i == 17;
    }
  }

  /** The energy width of channel k: the distance to its one neighbour at either
      end, half the distance between its two neighbours otherwise. It is positive
      because the centre energies strictly decrease. */
  function ChannelWidth(k: Channel): (w: real)
    ensures w > 0.0
  {
    ChannelEnergiesDecrease();
    if k == 0 then ChannelEnergies[0] - ChannelEnergies[1]
    else if k == 18 then ChannelEnergies[17] - ChannelEnergies[18]
    else (ChannelEnergies[k - 1] - ChannelEnergies[k + 1]) / 2.0
  }

  /** `_hardy_channel_widths`: fills a 19-entry array one channel at a time. */
  method HardyChannelWidths() returns (w: seq<real>)
    ensures |w| == NumChannels
    ensures w[0] == ChannelEnergies[0] - ChannelEnergies[1]
    ensures forall k :: 1 <= k <= 17 ==> w[k] == (ChannelEnergies[k - 1] - ChannelEnergies[k + 1]) / 2.0
    ensures w[18] == ChannelEnergies[17] - ChannelEnergies[18]
    ensures forall k :: 0 <= k < 19 ==> w[k] == ChannelWidth(k) && w[k] > 0.0
  {
    var widths := new real[19](_ => 0.0);
    widths[0] := ChannelEnergies[0] - ChannelEnergies[1];
    for k := 1 to 18
      invariant widths[0] == ChannelWidth(0)
      invariant forall j :: 1 <= j < k ==> widths[j] == ChannelWidth(j)
    {
      widths[k] := (ChannelEnergies[k - 1] - ChannelEnergies[k + 1]) / 2.0;
    }
    widths[18] := ChannelEnergies[17] - ChannelEnergies[18];
    w := widths[..];
  }

  /** The number flux (#/m^2/s) per unit of differential flux in channel c:
      width / energy * pi, converted from cm^2 to m^2. */
  function NumberFactor(c: Channel): (f: real)
    ensures f > 0.0
  {
    var w := ChannelWidth(c);
    assert w * Pi * Cm2PerM2 > 0.0;
    w * Pi * Cm2PerM2 / ChannelEnergies[c]
  }

  /** The factor in the requested mode; energy mode also converts eV to mW. */
  function ChannelFactor(c: Channel, mode: Mode): (f: real)
    ensures f > 0.0
  {
    match mode
    case Number => NumberFactor(c)
    case Energy =>
      var e := ChannelEnergies[c] * JoulesPerEv * MilliPerUnit;
      assert e > 0.0;
      NumberFactor(c) * e
  }

  /** What one channel entry adds to the integral: `value/energy*width*pi*1e4`
      (times `energy*1.6e-19*1e3` in energy mode), 0 for a non-finite entry. */
  function Contribution(v: V, c: Channel, mode: Mode): real {
    FiniteOrZero(v) * ChannelFactor(c, mode)
  }

  /** The integrated flux of one sample (a row of 19 channel entries) over
      `channels`, summed in loop order; non-finite entries contribute 0. */
  function ChannelSum(row: seq<V>, channels: seq<Channel>, mode: Mode): real
    requires |row| == NumChannels
  {
    if channels == [] then 0.0
    else ChannelSum(row, channels[..|channels| - 1], mode)
         + Contribution(row[channels[|channels| - 1]], channels[|channels| - 1], mode)
  }

  /** `channels` with every occurrence of c removed. */
  function Without(channels: seq<Channel>, c: Channel): (r: seq<Channel>)
    ensures c !in r
    ensures forall d :: d in r <==> d in channels && d != c
  {
    if channels == [] then []
    else Without(channels[..|channels| - 1], c)
         + (if channels[|channels| - 1] == c then [] else [channels[|channels| - 1]])
  }

  lemma ChannelSumSnoc(row: seq<V>, channels: seq<Channel>, d: Channel, mode: Mode)
    requires |row| == NumChannels
    ensures ChannelSum(row, channels + [d], mode) == ChannelSum(row, channels, mode) + Contribution(row[d], d, mode)
  {
    assert (channels + [d])[..|channels|] == channels;
  }

  /** NaN isolation: a channel whose entry is not finite adds nothing, and the
      sum equals the sum over the remaining channels. */
  lemma {:induction false} NonFiniteChannelIsIsolated(row: seq<V>, channels: seq<Channel>, mode: Mode, c: Channel)
    requires |row| == NumChannels && !IsFinite(row[c])
    ensures ChannelSum(row, channels, mode) == ChannelSum(row, Without(channels, c), mode)
  {
    if channels != [] {
      var init, last := channels[..|channels| - 1], channels[|channels| - 1];
      assert channels == init + [last];
      NonFiniteChannelIsIsolated(row, init, mode, c);
      ChannelSumSnoc(row, init, last, mode);
      var w := Without(init, c);
      if last == c {
        assert Without(channels, c) == w;
      } else {
        assert Without(channels, c) == w + [last];
        ChannelSumSnoc(row, w, last, mode);
      }
    }
  }

  /** Energy mode differs from number mode by, per channel, the centre energy
      times 1.6e-19 J/eV times 1e3. */
  lemma EnergyContributionScalesNumber(v: V, c: Channel)
    ensures Contribution(v, c, Energy) == Contribution(v, c, Number) * (ChannelEnergies[c] * JoulesPerEv * MilliPerUnit)
  {
  }

  /** A sample entry as `_integrate_flux` leaves it: zeroed when its channel was
      selected and the entry was not finite. */
  function AfterIntegration(v: V, selected: bool): (z: V)
    ensures FiniteOrZero(z) == FiniteOrZero(v)
  {
    if selected then Zeroed(v) else v
  }

  /** One sample row with the selected non-finite entries zeroed. */
  function SanitizedRow(row: seq<V>, channels: seq<Channel>): (r: seq<V>)
    requires |row| == NumChannels
    ensures |r| == NumChannels
    ensures forall k :: 0 <= k < NumChannels && k in channels ==> IsFinite(r[k])
    ensures forall k :: 0 <= k < NumChannels && k !in channels ==> r[k] == row[k]
  {
    seq(NumChannels, k requires 0 <= k < NumChannels => AfterIntegration(row[k], k in channels))
  }

  predicate IsMatrix(rows: seq<seq<V>>) {
    forall n :: 0 <= n < |rows| ==> |rows[n]| == NumChannels
  }

  /** The integrated flux of every sample. */
  function Integral(rows: seq<seq<V>>, channels: seq<Channel>, mode: Mode): (flux: seq<real>)
    requires IsMatrix(rows)
    ensures |flux| == |rows|
  {
    seq(|rows|, n requires 0 <= n < |rows| => ChannelSum(rows[n], channels, mode))
  }

  function Sq(x: real): real {
    x * x
  }

  /** The quadrature sum of the per-channel contributions of sigma = rel * diff,
      with non-finite sigma entries zeroed: the square of the value
      `_integrated_flux_std` returns. */
  function SquaredSum(diffRow: seq<V>, relRow: seq<V>, channels: seq<Channel>, mode: Mode): (s: real)
    requires |diffRow| == NumChannels && |relRow| == NumChannels
    ensures s >= 0.0
  {
    if channels == [] then 0.0
    else
      var c := channels[|channels| - 1];
      SquaredSum(diffRow, relRow, channels[..|channels| - 1], mode) + Sq(Contribution(Mul(relRow[c], diffRow[c]), c, mode))
  }

  /** `std / flux * 100 >= tol` in IEEE arithmetic, where std is the square root
      of `variance`, stated without the root: for flux > 0 it is
      std >= tol * flux / 100, for flux < 0 it is std <= tol * flux / 100, and for
      flux == 0 the ratio is +inf when std > 0 and NaN (never >=) when std == 0. */
  predicate TooUncertain(variance: real, flux: real, tol: real) {
    var bound := tol * flux / 100.0;
    if flux > 0.0 then bound <= 0.0 || variance >= bound * bound
    else if flux < 0.0 then bound >= 0.0 && variance <= bound * bound
    else variance > 0.0
  }

  lemma MulNonneg(x: real, y: real)
    requires x >= 0.0 && y >= 0.0
    ensures x * y >= 0.0
  {
  }

  lemma MulPos(x: real, y: real)
    requires x > 0.0 && y > 0.0
    ensures x * y > 0.0
  {
  }

  /** Multiplying by a positive number keeps the order. */
  lemma ScaleOrdered(a: real, b: real, k: real)
    requires k > 0.0
    ensures a >= b <==> a * k >= b * k
  {
    assert a * k - b * k == (a - b) * k;
    if a >= b {
      MulNonneg(a - b, k);
    } else {
      MulPos(b - a, k);
    }
  }

  lemma SquaresOrdered(a: real, b: real)
    requires a >= 0.0 && b >= 0.0
    ensures a >= b <==> a * a >= b * b
  {
    if a >= b {
      assert a * a - b * b == (a - b) * (a + b);
      MulNonneg(a - b, a + b);
    } else {
      assert b * b - a * a == (b - a) * (b + a);
      MulPos(b - a, b + a);
    }
  }

  /** TooUncertain is the literal ratio test for every non-negative square root
      of the variance. */
  lemma TooUncertainIsRatioTest(std: real, flux: real, tol: real)
    requires std >= 0.0
    ensures TooUncertain(std * std, flux, tol) <==> (if flux != 0.0 then std / flux * 100.0 >= tol else std > 0.0)
  {
    var bound := tol * flux / 100.0;
    if flux != 0.0 {
      var q := std / flux * 100.0;
      assert q * flux == std * 100.0;
      assert bound * 100.0 == tol * flux;
      if flux > 0.0 {
        ScaleOrdered(q, tol, flux);
        ScaleOrdered(std, bound, 100.0);
        assert q >= tol <==> std >= bound;
        if bound > 0.0 {
          SquaresOrdered(std, bound);
        }
      } else {
        ScaleOrdered(q, tol, -flux);
        assert q * -flux == -(std * 100.0);
        ScaleOrdered(bound, std, 100.0);
        assert q >= tol <==> std <= bound;
        if bound >= 0.0 {
          SquaresOrdered(bound, std);
        }
      }
    } else if std > 0.0 {
      MulPos(std, std);
    }
  }

  /** A lower tolerance suppresses at least every sample a higher one does. */
  lemma TooUncertainMonotone(variance: real, flux: real, tol1: real, tol2: real)
    requires variance >= 0.0 && tol1 <= tol2 && TooUncertain(variance, flux, tol2)
    ensures TooUncertain(variance, flux, tol1)
  {
    var b1, b2 := tol1 * flux / 100.0, tol2 * flux / 100.0;
    assert b2 - b1 == (tol2 - tol1) * flux / 100.0;
    if flux > 0.0 {
      MulNonneg(tol2 - tol1, flux);
      if b1 > 0.0 {
        SquaresOrdered(b2, b1);
      }
    } else if flux < 0.0 {
      MulNonneg(tol2 - tol1, -flux);
      SquaresOrdered(b1, b2);
    }
  }

  /** A 0 % tolerance suppresses every non-negative flux with non-zero uncertainty. */
  lemma ZeroToleranceSuppresses(variance: real, flux: real)
    requires variance > 0.0 && flux >= 0.0
    ensures TooUncertain(variance, flux, 0.0)
  {
  }

  /** A positive flux is kept exactly when the tolerance is positive and above
      its relative uncertainty in percent: tol² · flux² > 100² · variance. */
  lemma LargeToleranceKeeps(variance: real, flux: real, tol: real)
    requires variance >= 0.0 && flux > 0.0
    ensures !TooUncertain(variance, flux, tol) <==> tol > 0.0 && tol * tol * flux * flux > 10000.0 * variance
  {
    var bound := tol * flux / 100.0;
    assert bound * bound * 10000.0 == tol * tol * flux * flux;
    if tol > 0.0 {
      MulPos(tol, flux);
    } else {
      MulNonneg(-tol, flux);
    }
  }

  /** `integrate_flux`: the plain integral, or, with both an uncertainty matrix
      and a tolerance, the integral with too-uncertain samples set to 0. */
  function FluxWithTolerance(rows: seq<seq<V>>, rel: Option<seq<seq<V>>>, channels: seq<Channel>,
                             mode: Mode, tol: Option<real>): (out: seq<real>)
    requires IsMatrix(rows)
    requires rel.Some? ==> IsMatrix(rel.value) && |rel.value| == |rows|
    ensures |out| == |rows|
    ensures rel.None? || tol.None? ==> out == Integral(rows, channels, mode)
    ensures rel.Some? && tol.Some? ==> forall n :: 0 <= n < |rows| ==>
      var flux := ChannelSum(rows[n], channels, mode);
      out[n] == (if TooUncertain(SquaredSum(rows[n], rel.value[n], channels, mode), flux, tol.value) then 0.0 else flux)
  {
    var flux := Integral(rows, channels, mode);
    if rel.Some? && tol.Some? then
      seq(|rows|, n requires 0 <= n < |rows| =>
        if TooUncertain(SquaredSum(rows[n], rel.value[n], channels, mode), flux[n], tol.value) then 0.0 else flux[n])
    else flux
  }

  /** The integral does not depend on what `_integrate_flux` did to its input. */
  lemma {:induction false} SanitizingKeepsSum(row: seq<V>, selected: seq<Channel>, channels: seq<Channel>, mode: Mode)
    requires |row| == NumChannels
    ensures ChannelSum(SanitizedRow(row, selected), channels, mode) == ChannelSum(row, channels, mode)
  {
    if channels != [] {
      SanitizingKeepsSum(row, selected, channels[..|channels| - 1], mode);
    }
  }

  /** Nor does the uncertainty computed from the mutated input: a zeroed entry
      makes sigma 0 or non-finite, and both contribute 0. */
  /** A contribution depends on its entry only through FiniteOrZero. */
  lemma SameContribution(v: V, w: V, c: Channel, mode: Mode)
    requires FiniteOrZero(v) == FiniteOrZero(w)
    ensures Contribution(v, c, mode) == Contribution(w, c, mode)
  {
  }

  lemma {:induction false} SanitizingKeepsSquaredSum(row: seq<V>, relRow: seq<V>, selected: seq<Channel>,
                                                     channels: seq<Channel>, mode: Mode)
    requires |row| == NumChannels && |relRow| == NumChannels
    ensures SquaredSum(SanitizedRow(row, selected), relRow, channels, mode) == SquaredSum(row, relRow, channels, mode)
  {
    if channels != [] {
      var c := channels[|channels| - 1];
      SanitizingKeepsSquaredSum(row, relRow, selected, channels[..|channels| - 1], mode);
      assert FiniteOrZero(Mul(relRow[c], SanitizedRow(row, selected)[c])) == FiniteOrZero(Mul(relRow[c], row[c]));
      SameContribution(Mul(relRow[c], SanitizedRow(row, selected)[c]), Mul(relRow[c], row[c]), c, mode);
    }
  }

  // ---------------------------------------------------------------------------
  // The imperative core: the source works on a (samples x 19) array in place.

  /** A prefix of the channel list extended by one channel adds that channel's contribution. */
  lemma ChannelSumStep(row: seq<V>, channels: seq<Channel>, j: int, mode: Mode)
    requires |row| == NumChannels && 0 <= j < |channels|
    ensures ChannelSum(row, channels[..j + 1], mode)
         == ChannelSum(row, channels[..j], mode) + Contribution(row[channels[j]], channels[j], mode)
  {
    assert channels[..j + 1][..j] == channels[..j];
  }

  lemma SquaredSumStep(diffRow: seq<V>, relRow: seq<V>, channels: seq<Channel>, j: int, mode: Mode)
    requires |diffRow| == NumChannels && |relRow| == NumChannels && 0 <= j < |channels|
    ensures SquaredSum(diffRow, relRow, channels[..j + 1], mode)
         == SquaredSum(diffRow, relRow, channels[..j], mode)
            + Sq(Contribution(Mul(relRow[channels[j]], diffRow[channels[j]]), channels[j], mode))
  {
    assert channels[..j + 1][..j] == channels[..j];
  }

  /** `a[nn, c] = 0.` for the non-finite entries nn of column c. */
  method ZeroNonFiniteColumn(a: array2<V>, c: Channel)
    requires a.Length1 == NumChannels
    modifies a
    ensures forall n, k :: 0 <= n < a.Length0 && 0 <= k < NumChannels ==>
      a[n, k] == (if k == c then Zeroed(old(a[n, k])) else old(a[n, k]))
  {
    for n := 0 to a.Length0
      invariant forall p, k :: 0 <= p < a.Length0 && 0 <= k < NumChannels ==>
        a[p, k] == (if k == c && p < n then Zeroed(old(a[p, k])) else old(a[p, k]))
    {
      if !IsFinite(a[n, c]) {
        a[n, c] := Fin(0.0);
      }
    }
  }

  /** What column c adds per sample: its contribution, squared for the quadrature sum. */
  function Term(v: V, c: Channel, mode: Mode, squared: bool): real {
    if squared then Sq(Contribution(v, c, mode)) else Contribution(v, c, mode)
  }

  /** `total = total + cc` where cc is the contribution of column c, or its
      square when `squared` holds. */
  method AddColumn(total: array<real>, a: array2<V>, c: Channel, mode: Mode, squared: bool)
    requires a.Length1 == NumChannels && total.Length == a.Length0
    modifies total
    ensures forall n :: 0 <= n < total.Length ==> total[n] == old(total[n]) + Term(a[n, c], c, mode, squared)
  {
    for n := 0 to total.Length
      invariant forall p :: 0 <= p < n ==> total[p] == old(total[p]) + Term(a[p, c], c, mode, squared)
      invariant forall p :: n <= p < total.Length ==> total[p] == old(total[p])
    {
      total[n] := total[n] + Term(a[n, c], c, mode, squared);
    }
  }

  /** `_integrate_flux`: rejects an unknown mode before touching anything; else,
      channel by channel, zeroes the non-finite entries of that column in place
      and adds the column's contributions to the running total. */
  method IntegrateInPlace(diffFlux: array2<V>, channels: seq<Channel>, mode: string) returns (r: Result<seq<real>>)
    requires diffFlux.Length1 == NumChannels
    modifies diffFlux
    ensures ParseMode(mode).Failure? ==> r == Failure(ValueError) && unchanged(diffFlux)
    ensures ParseMode(mode).Success? ==> r == Success(Integral(old(Sequences.Rows(diffFlux)), channels, ParseMode(mode).value))
    ensures ParseMode(mode).Success? ==> forall n, k :: 0 <= n < diffFlux.Length0 && 0 <= k < NumChannels ==>
      diffFlux[n, k] == AfterIntegration(old(diffFlux[n, k]), k in channels)
  {
    var m :- ParseMode(mode);
    var N := diffFlux.Length0;
    ghost var rows := Sequences.Rows(diffFlux);
    var flux := new real[N](_ => 0.0);
    for j := 0 to |channels|
      invariant forall n :: 0 <= n < N ==> flux[n] == ChannelSum(rows[n], channels[..j], m)
      invariant forall n, k :: 0 <= n < N && 0 <= k < NumChannels ==>
        diffFlux[n, k] == AfterIntegration(old(diffFlux[n, k]), k in channels[..j])
    {
      var c := channels[j];
      assert forall k :: k in channels[..j + 1] <==> k in channels[..j] || k == c by {
        assert channels[..j + 1] == channels[..j] + [c];
      }
      ZeroNonFiniteColumn(diffFlux, c);
      AddColumn(flux, diffFlux, c, m, false);
      forall n | 0 <= n < N
        ensures flux[n] == ChannelSum(rows[n], channels[..j + 1], m)
      {
        ChannelSumStep(rows[n], channels, j, m);
        SameContribution(diffFlux[n, c], rows[n][c], c, m);
      }
    }
    assert channels[..|channels|] == channels;
    forall n | 0 <= n < N
      ensures flux[..][n] == Integral(rows, channels, m)[n]
    {
    }
    assert flux[..] == Integral(rows, channels, m);
    r := Success(flux[..]);
  }

  /** `_integrated_flux_std`, without the final square root: builds
      sigma = rel * diff, zeroes its non-finite entries channel by channel, and
      adds the squared contributions. */
  method IntegratedFluxVariance(diffFlux: array2<V>, rel: array2<V>, channels: seq<Channel>, mode: Mode)
    returns (variance: seq<real>)
    requires diffFlux.Length1 == NumChannels && rel.Length1 == NumChannels && rel.Length0 == diffFlux.Length0
    ensures |variance| == diffFlux.Length0
    ensures forall n :: 0 <= n < |variance| ==>
      variance[n] == SquaredSum(Sequences.Row(diffFlux, n), Sequences.Row(rel, n), channels, mode)
  {
    var N := diffFlux.Length0;
    var sigma := new V[N, NumChannels]((n, k) requires 0 <= n < N && 0 <= k < NumChannels reads rel, diffFlux =>
                                         Mul(rel[n, k], diffFlux[n, k]));
    var acc := new real[N](_ => 0.0);
    for j := 0 to |channels|
      invariant forall n :: 0 <= n < N ==>
        acc[n] == SquaredSum(Sequences.Row(diffFlux, n), Sequences.Row(rel, n), channels[..j], mode)
      invariant forall n, k :: 0 <= n < N && 0 <= k < NumChannels ==>
        FiniteOrZero(sigma[n, k]) == FiniteOrZero(Mul(rel[n, k], diffFlux[n, k]))
    {
      var c := channels[j];
      ZeroNonFiniteColumn(sigma, c);
      AddColumn(acc, sigma, c, mode, true);
      forall n | 0 <= n < N
        ensures acc[n] == SquaredSum(Sequences.Row(diffFlux, n), Sequences.Row(rel, n), channels[..j + 1], mode)
      {
        SquaredSumStep(Sequences.Row(diffFlux, n), Sequences.Row(rel, n), channels, j, mode);
        SameContribution(sigma[n, c], Mul(rel[n, c], diffFlux[n, c]), c, mode);
      }
    }
    assert channels[..|channels|] == channels;
    variance := acc[..];
  }

  /** `integrate_flux`: integrate (mutating `diffFlux` as `_integrate_flux`
      does), then, with both an uncertainty matrix and a tolerance, set every
      too-uncertain sample to 0. */
  method IntegrateFlux(diffFlux: array2<V>, channels: seq<Channel>, mode: string,
                       rel: Option<array2<V>>, tol: Option<real>)
    returns (r: Result<seq<real>>)
    requires diffFlux.Length1 == NumChannels
    requires rel.Some? ==> rel.value != diffFlux && rel.value.Length0 == diffFlux.Length0 && rel.value.Length1 == NumChannels
    modifies diffFlux
    ensures ParseMode(mode).Failure? ==> r == Failure(ValueError) && unchanged(diffFlux)
    ensures ParseMode(mode).Success? ==>
      r == Success(FluxWithTolerance(old(Sequences.Rows(diffFlux)), if rel.Some? then Some(Sequences.Rows(rel.value)) else None,
                                     channels, ParseMode(mode).value, tol))
    ensures ParseMode(mode).Success? ==> forall n, k :: 0 <= n < diffFlux.Length0 && 0 <= k < NumChannels ==>
      diffFlux[n, k] == AfterIntegration(old(diffFlux[n, k]), k in channels)
  {
    ghost var rows := Sequences.Rows(diffFlux);
    var flux :- IntegrateInPlace(diffFlux, channels, mode);
    var m := ParseMode(mode).value;
    ghost var relRows := if rel.Some? then Some(Sequences.Rows(rel.value)) else None;
    if rel.Some? && tol.Some? {
      var variance := IntegratedFluxVariance(diffFlux, rel.value, channels, m);
      var out := new real[|flux|](i requires 0 <= i < |flux| => flux[i]);
      for n := 0 to |flux|
        modifies out
        invariant forall p :: 0 <= p < n ==>
          out[p] == (if TooUncertain(variance[p], flux[p], tol.value) then 0.0 else flux[p])
        invariant forall p :: n <= p < |flux| ==> out[p] == flux[p]
      {
        if TooUncertain(variance[n], flux[n], tol.value) {
          out[n] := 0.0;
        }
      }
      forall n | 0 <= n < |rows|
        ensures variance[n] == SquaredSum(rows[n], relRows.value[n], channels, m)
      {
        forall k | 0 <= k < NumChannels
          ensures Sequences.Row(diffFlux, n)[k] == SanitizedRow(rows[n], channels)[k]
        {
          assert rows[n][k] == old(diffFlux[n, k]);
        }
        assert Sequences.Row(diffFlux, n) == SanitizedRow(rows[n], channels);
        SanitizingKeepsSquaredSum(rows[n], relRows.value[n], channels, channels, m);
      }
      assert relRows == Some(Sequences.Rows(rel.value));
      ghost var expected := FluxWithTolerance(rows, relRows, channels, m, tol);
      forall n | 0 <= n < |rows|
        ensures out[..][n] == expected[n]
      {
      }
      assert out[..] == expected;
      r := Success(out[..]);
    } else {
      r := Success(flux);
    }
  }

  /** `average_particle_energy` for one sample, in IEEE arithmetic: the energy
      flux converted back to eV per unit number flux; a zero number flux gives
      an infinity of the energy flux's sign, or NaN for 0 / 0. */
  function AverageEnergy(energyFlux: real, numberFlux: real): (e: V)
    ensures IsFinite(e) <==> numberFlux != 0.0
    ensures numberFlux != 0.0 ==> e.r * numberFlux * JoulesPerEv * MilliPerUnit == energyFlux
  {
    if numberFlux != 0.0 then Fin(energyFlux / JoulesPerEv / MilliPerUnit / numberFlux)
    else if energyFlux > 0.0 then Inf(false)
    else if energyFlux < 0.0 then Inf(true)
    else NaN
  }

  /** `average_particle_energy`, elementwise. */
  function AverageParticleEnergy(energyFlux: seq<real>, numberFlux: seq<real>): (e: seq<V>)
    requires |energyFlux| == |numberFlux|
    ensures |e| == |energyFlux|
    ensures forall i :: 0 <= i < |e| ==> e[i] == AverageEnergy(energyFlux[i], numberFlux[i])
  {
    seq(|energyFlux|, i requires 0 <= i < |energyFlux| => AverageEnergy(energyFlux[i], numberFlux[i]))
  }

  lemma DivCancel(a: real, k: real)
    requires k != 0.0
    ensures a * k / k == a
  {
  }

  lemma MulNonzero(x: real, y: real)
    requires x != 0.0 && y != 0.0
    ensures x * y != 0.0
  {
  }

  /** The unit conversions of `average_particle_energy` undo those of energy mode. */
  lemma ConversionsCancel(x: real, f: real, e: real, j: real, m: real)
    requires x != 0.0 && f != 0.0 && j != 0.0 && m != 0.0
    ensures (x * (f * (e * j * m))) / j / m / (x * f) == e
  {
    var n := x * f;
    MulNonzero(x, f);
    var t := x * (f * (e * j * m));
    assert t == (n * e * m) * j;
    DivCancel(n * e * m, j);
    assert t / j == (n * e) * m;
    DivCancel(n * e, m);
    assert t / j / m == e * n;
    DivCancel(e, n);
  }

  lemma SingleChannelSum(row: seq<V>, c: Channel, mode: Mode)
    requires |row| == NumChannels
    ensures ChannelSum(row, [c], mode) == FiniteOrZero(row[c]) * ChannelFactor(c, mode)
  {
    assert [c][..0] == [];
  }

  /** Integrating one channel in both modes gives back that channel's centre energy. */
  lemma SingleChannelAverageEnergy(row: seq<V>, c: Channel)
    requires |row| == NumChannels && FiniteOrZero(row[c]) != 0.0
    ensures AverageEnergy(ChannelSum(row, [c], Energy), ChannelSum(row, [c], Number)) == Fin(ChannelEnergies[c])
  {
    var x, f := FiniteOrZero(row[c]), NumberFactor(c);
    var e := ChannelEnergies[c];
    SingleChannelSum(row, c, Energy);
    SingleChannelSum(row, c, Number);
    var ef, nf := ChannelSum(row, [c], Energy), ChannelSum(row, [c], Number);
    assert nf == x * f;
    assert ef == x * (f * (e * JoulesPerEv * MilliPerUnit));
    MulNonzero(x, f);
    ConversionsCancel(x, f, e, JoulesPerEv, MilliPerUnit);
    assert ef / JoulesPerEv / MilliPerUnit / nf == e;
  }
}
