/**
 * The discrete part of `detect_pitch` in pitch_detector_en.py: zero-padding the
 * autocorrelation, the lag window between the lowest and the highest detectable
 * frequency, the first maximum in that window, the noise floor, and the parabolic
 * refinement of the peak position, followed by the division that turns the lag into
 * a frequency.
 *
 * The autocorrelation `corr` is an input: the low-pass filter, the Hann window and
 * `np.correlate` that produce it are not part of this model. Samples are reals.
 */
module PitchEstimator {
  import opened Wrappers
  import opened Numerics

  /** `ZERO_PAD_FACTOR`: the padded buffer is this many times as long as the correlation. */
  const ZeroPadFactor: nat := 8

  /** `fmin` and `fmax` of `detect_pitch`, in Hz. */
  const FMin: int := 24
  const FMax: int := 5000

  /** A peak whose correlation is below this counts as silence. */
  const NoiseFloor: real := 0.000001

  /** Python's `int(a / b)` for a positive `b`: the quotient rounded toward zero. */
  function TruncDiv(a: int, b: int): (q: int)
    requires b > 0
    ensures a >= 0 ==> q >= 0
    ensures a < 0 ==> q <= 0
  {
    if a >= 0 then a / b else -((-a) / b)
  }

  /** The quotient rounded toward zero: `b * q` is the multiple of `b` next to `a` on the side of zero. */
  lemma TruncDivBounds(a: int, b: int)
    requires b > 0
    ensures var q := TruncDiv(a, b);
      && (a >= 0 ==> b * q <= a < b * q + b)
      && (a < 0 ==> b * q - b < a <= b * q)
  {
    var m := if a >= 0 then a else -a;
    var d, r := m / b, m % b;
    assert m == b * d + r && 0 <= r < b;
    if a < 0 {
      assert b * -d == -(b * d);
    }
  }

  /** Where a Python slice bound `i` lands in a sequence of length `len`. */
  function SliceIndex(i: int, len: nat): (r: nat)
    ensures r <= len
    ensures 0 <= i <= len ==> r == i
    ensures i < 0 ==> r == if i + len < 0 then 0 else i + len
    ensures i > len ==> r == len
  {
    if i < 0 then (if i + len < 0 then 0 else i + len)
    else if i > len then len
    else i
  }

  // ---------------------------------------------------------------------------------
  // The specification of the peak search

  /** `corr_padded` once `corr` is written into its front. */
  function Padded(corr: seq<real>): (p: seq<real>)
    ensures |p| == ZeroPadFactor * |corr|
  {
    corr + seq((ZeroPadFactor - 1) * |corr|, _ => 0.0)
  }

  /** The padded buffer holds `corr` in front and zeros after it. */
  lemma PaddedAt(corr: seq<real>, i: nat)
    requires i < ZeroPadFactor * |corr|
    ensures Padded(corr)[i] == if i < |corr| then corr[i] else 0.0
  {
  }

  /** `lag_min`: the lag of the highest detectable frequency. */
  function LagMin(sampleRate: int): int {
    TruncDiv(sampleRate, FMax)
  }

  /** `lag_max` after the clamp: the lag of the lowest detectable frequency, at most `len(corr) - 1`. */
  function LagMax(sampleRate: int, n: nat): (lag: int)
    ensures lag <= n - 1
    ensures lag == TruncDiv(sampleRate, FMin) || lag == n - 1
  {
    var lag := TruncDiv(sampleRate, FMin);
    if lag >= n then n - 1 else lag
  }

  /** Where the slice `corr_padded[lag_min:lag_max * 8]` starts in `corr_padded`. */
  function RegionStart(sampleRate: int, n: nat): nat {
    SliceIndex(LagMin(sampleRate), ZeroPadFactor * n)
  }

  /** Where the slice `corr_padded[lag_min:lag_max * 8]` stops in `corr_padded`. */
  function RegionStop(sampleRate: int, n: nat): nat {
    SliceIndex(LagMax(sampleRate, n) * ZeroPadFactor, ZeroPadFactor * n)
  }

  /** `np.argmax`: the position of the first maximum. */
  function ArgMax(s: seq<real>): (k: nat)
    requires s != []
    ensures k < |s|
  {
    if |s| == 1 then 0
    else
      var k := ArgMax(s[..|s| - 1]);
      if s[|s| - 1] > s[k] then |s| - 1 else k
  }

  /** `ArgMax` is the first position of the maximum. */
  lemma {:induction false} ArgMaxIsFirstMaximum(s: seq<real>)
    requires s != []
    ensures var k := ArgMax(s);
      && (forall j :: 0 <= j < |s| ==> s[j] <= s[k])
      && (forall j :: 0 <= j < k ==> s[j] < s[k])
  {
    if |s| > 1 {
      var init := s[..|s| - 1];
      ArgMaxIsFirstMaximum(init);
      assert forall j :: 0 <= j < |init| ==> s[j] == init[j];
    }
  }

  /**
   * `peak_idx`, the first maximum of the search region plus `lag_min`, or nothing when
   * the region is empty. The offset is `lag_min` itself, not where the slice starts;
   * `RegionStartsAtLagMin` shows the two agree whenever the region is not empty.
   */
  function PeakIndex(corr: seq<real>, sampleRate: int): (peak: Option<nat>)
    ensures peak.None? <==> RegionStop(sampleRate, |corr|) <= RegionStart(sampleRate, |corr|)
    ensures peak.Some? ==>
      RegionStart(sampleRate, |corr|) <= peak.value < RegionStop(sampleRate, |corr|)
  {
    var start := RegionStart(sampleRate, |corr|);
    var stop := RegionStop(sampleRate, |corr|);
    if stop <= start then None
    else
      RegionStartsAtLagMin(sampleRate, |corr|);
      Some(ArgMax(Padded(corr)[start..stop]) + LagMin(sampleRate))
  }

  /** A non-empty region puts the peak at `lag_min` plus the first maximum of the region. */
  lemma PeakIndexFromRegion(corr: seq<real>, sampleRate: int)
    requires RegionStart(sampleRate, |corr|) < RegionStop(sampleRate, |corr|)
    ensures var start, stop := RegionStart(sampleRate, |corr|), RegionStop(sampleRate, |corr|);
      PeakIndex(corr, sampleRate) == Some(ArgMax(Padded(corr)[start..stop]) + LagMin(sampleRate))
  {
  }

  /** The slice bounds of a non-empty region start at `lag_min` exactly. */
  lemma RegionStartsAtLagMin(sampleRate: int, n: nat)
    requires RegionStart(sampleRate, n) < RegionStop(sampleRate, n)
    ensures RegionStart(sampleRate, n) == LagMin(sampleRate)
  {
  }

  // ---------------------------------------------------------------------------------
  // parabolic_interpolation and the final division

  /**
   * The peak position `parabolic_interpolation` returns: a number, or the infinity or
   * NaN that numpy yields when the denominator is zero.
   */
  datatype Lag = LagAt(position: real) | LagInfinite | LagNaN

  /**
   * `parabolic_interpolation(spectrum, peak_idx)`: the vertex of the parabola through
   * the peak and its two neighbours, or the peak itself at either end of the spectrum.
   */
  function ParabolicInterpolation(spectrum: seq<real>, peak: int): Lag {
    if 1 <= peak < |spectrum| - 1 then
      var alpha := spectrum[peak - 1];
      var beta := spectrum[peak];
      var gamma := spectrum[peak + 1];
      var numerator := 0.5 * (alpha - gamma);
      var denominator := alpha - 2.0 * beta + gamma;
      if denominator != 0.0 then LagAt(peak as real + numerator / denominator)
      else if numerator != 0.0 then LagInfinite
      else LagNaN
    else LagAt(peak as real)
  }

  /**
   * `sample_rate / peak_idx_interp` under numpy's rules: division by a zero lag gives
   * an infinity or NaN, division by an infinite lag gives zero.
   */
  function PitchFromLag(sampleRate: int, lag: Lag): (f: Float)
    ensures lag.LagAt? && lag.position != 0.0 ==> f == Finite(sampleRate as real / lag.position)
    ensures lag.LagInfinite? ==> f == Finite(0.0)
    ensures lag.LagNaN? || lag == LagAt(0.0) ==> f.NonFinite?
  {
    match lag
    case LagAt(x) => if x == 0.0 then NonFinite else Finite(sampleRate as real / x)
    case LagInfinite => Finite(0.0)
    case LagNaN => NonFinite
  }

  /** What `detect_pitch` returns for the autocorrelation `corr`; `None` means no usable sound. */
  function Pitch(corr: seq<real>, sampleRate: int): Option<Float> {
    match PeakIndex(corr, sampleRate)
    case None => None
    case Some(peak) =>
      if Padded(corr)[peak] < NoiseFloor then None
      else Some(PitchFromLag(sampleRate, ParabolicInterpolation(Padded(corr), peak)))
  }

  // ---------------------------------------------------------------------------------
  // detect_pitch

  /** `np.argmax(a[lo:hi])`: the first maximum of the slice, relative to `lo`. */
  method FirstArgMax(a: array<real>, lo: nat, hi: nat) returns (k: nat)
    requires lo < hi <= a.Length
    ensures k == ArgMax(a[lo..hi])
  {
    k := 0;
    var i := lo + 1;
    assert a[lo..i] == [a[lo]];
    while i < hi
      invariant lo < i <= hi
      invariant k == ArgMax(a[lo..i])
    {
      ghost var seen := a[lo..i];
      assert a[lo..i + 1] == seen + [a[i]];
      ArgMaxStep(seen, a[i]);
      assert seen[k] == a[lo + k];
      if a[i] > a[lo + k] {
        k := i - lo;
      }
      i := i + 1;
    }
  }

  /** One more element moves the first maximum to it exactly when it is larger. */
  lemma ArgMaxStep(s: seq<real>, x: real)
    requires s != []
    ensures ArgMax(s + [x]) == if x > s[ArgMax(s)] then |s| else ArgMax(s)
  {
    assert (s + [x])[..|s|] == s;
  }

  /** `corr_padded = np.zeros(len(corr) * 8); corr_padded[:len(corr)] = corr`. */
  method PadCorrelation(corr: seq<real>) returns (corrPadded: array<real>)
    ensures fresh(corrPadded)
    ensures corrPadded[..] == Padded(corr)
  {
    corrPadded := new real[|corr| * ZeroPadFactor](_ => 0.0);
    for i := 0 to |corr|
      invariant forall j :: 0 <= j < corrPadded.Length ==> corrPadded[j] == if j < i then corr[j] else 0.0
    {
      corrPadded[i] := corr[i];
    }
    forall j | 0 <= j < corrPadded.Length
      ensures corrPadded[j] == Padded(corr)[j]
    {
      PaddedAt(corr, j);
    }
  }

  /**
   * Lines 89-94 of `detect_pitch`: `lag_min`, `lag_max` clamped to the correlation, and
   * where the slice `corr_padded[lag_min:lag_max * 8]` starts and stops.
   */
  method LagWindow(sampleRate: int, n: nat) returns (lagMin: int, start: nat, stop: nat)
    ensures lagMin == LagMin(sampleRate)
    ensures start == RegionStart(sampleRate, n) && stop == RegionStop(sampleRate, n)
  {
    var nPadded := n * ZeroPadFactor;
    lagMin := TruncDiv(sampleRate, FMax);
    var lagMax := TruncDiv(sampleRate, FMin);
    if lagMax >= n {
      lagMax := n - 1;
    }
    start := SliceIndex(lagMin, nPadded);
    stop := SliceIndex(lagMax * ZeroPadFactor, nPadded);
  }

  /**
   * Lines 85-107 of `detect_pitch`: pads the autocorrelation into a fresh buffer,
   * clamps the lag window, finds the first maximum in it, rejects silence, and refines
   * the peak position.
   */
  method DetectPitch(corr: seq<real>, sampleRate: int) returns (pitch: Option<Float>)
    ensures pitch == Pitch(corr, sampleRate)
  {
    var corrPadded := PadCorrelation(corr);
    var lagMin, start, stop := LagWindow(sampleRate, |corr|);
    if stop <= start {
      return None;
    }

    var k := FirstArgMax(corrPadded, start, stop);
    var peakIdx := k + lagMin;
    assert corrPadded[start..stop] == corrPadded[..][start..stop];
    PeakIndexFromRegion(corr, sampleRate);

    if corrPadded[peakIdx] < NoiseFloor {
      return None;
    }

    var peakIdxInterp := ParabolicInterpolation(corrPadded[..], peakIdx);
    pitch := Some(PitchFromLag(sampleRate, peakIdxInterp));
  }

  // ---------------------------------------------------------------------------------
  // Properties of the peak search

  /** At the tool's sample rate of 11025 Hz the lags run from 2 to 459 samples. */
  lemma DefaultRateWindow(n: nat)
    requires n > 459
    ensures LagMin(11025) == 2 && LagMax(11025, n) == 459
    ensures RegionStart(11025, n) == 2 && RegionStop(11025, n) == 3672
  {
  }

  /**
   * For a non-negative sample rate the peak lies in `[lag_min, lag_max * 8)`, and that
   * window ends at least 8 slots before the end of the padded buffer.
   */
  lemma PeakWithinWindow(corr: seq<real>, sampleRate: int)
    requires sampleRate >= 0
    requires PeakIndex(corr, sampleRate).Some?
    ensures var peak := PeakIndex(corr, sampleRate).value;
      LagMin(sampleRate) <= peak < LagMax(sampleRate, |corr|) * ZeroPadFactor <= |Padded(corr)| - ZeroPadFactor
  {
    RegionStartsAtLagMin(sampleRate, |corr|);
  }

  /**
   * With a sample rate of at least `fmax` the lag window starts at 1 or later, so the
   * peak always has a neighbour on each side and is refined by the parabola.
   */
  lemma PeakIsInterior(corr: seq<real>, sampleRate: int)
    requires sampleRate >= FMax
    requires PeakIndex(corr, sampleRate).Some?
    ensures 1 <= PeakIndex(corr, sampleRate).value < |Padded(corr)| - 1
  {
    PeakWithinWindow(corr, sampleRate);
  }

  /** The peak is the first maximum of the search region. */
  lemma PeakIsFirstMaximum(corr: seq<real>, sampleRate: int)
    requires PeakIndex(corr, sampleRate).Some?
    ensures var peak := PeakIndex(corr, sampleRate).value;
      var padded := Padded(corr);
      && (forall j :: RegionStart(sampleRate, |corr|) <= j < RegionStop(sampleRate, |corr|) ==> padded[j] <= padded[peak])
      && (forall j :: RegionStart(sampleRate, |corr|) <= j < peak ==> padded[j] < padded[peak])
  {
    var start := RegionStart(sampleRate, |corr|);
    var stop := RegionStop(sampleRate, |corr|);
    RegionStartsAtLagMin(sampleRate, |corr|);
    SliceMaximum(Padded(corr), start, stop);
  }

  /** The first maximum of a slice, as a position in the whole sequence. */
  lemma SliceMaximum(p: seq<real>, start: nat, stop: nat)
    requires start < stop <= |p|
    ensures var peak := start + ArgMax(p[start..stop]);
      && (forall j :: start <= j < stop ==> p[j] <= p[peak])
      && (forall j :: start <= j < peak ==> p[j] < p[peak])
  {
    var region := p[start..stop];
    var k := ArgMax(region);
    ArgMaxIsFirstMaximum(region);
    forall j | start <= j < stop
      ensures p[j] <= p[start + k]
      ensures j < start + k ==> p[j] < p[start + k]
    {
      assert region[j - start] == p[j] && region[k] == p[start + k];
    }
  }

  /**
   * A correlation that stays below the noise floor, such as an all-zero one from
   * silence, gives no pitch: the padding zeros are below the floor as well.
   */
  lemma QuietCorrelationGivesNone(corr: seq<real>, sampleRate: int)
    requires forall i :: 0 <= i < |corr| ==> corr[i] < NoiseFloor
    ensures Pitch(corr, sampleRate).None?
  {
    if PeakIndex(corr, sampleRate).Some? {
      var peak := PeakIndex(corr, sampleRate).value;
      PaddedAt(corr, peak);
    }
  }

  /**
   * A detected pitch comes from a lag inside the correlation itself, never from the
   * zero padding, and the correlation there reaches the noise floor.
   */
  lemma PeakWithinCorrelation(corr: seq<real>, sampleRate: int)
    requires Pitch(corr, sampleRate).Some?
    ensures PeakIndex(corr, sampleRate).Some?
    ensures var peak := PeakIndex(corr, sampleRate).value;
      peak < |corr| && corr[peak] >= NoiseFloor
  {
    PaddedAt(corr, PeakIndex(corr, sampleRate).value);
  }

  /**
   * A negative sample rate makes `lag_max` negative, which Python reads as a position
   * counted from the end of the padded buffer: at -100 Hz over 10 lags the search
   * covers slots 0 to 47 of 80.
   */
  lemma NegativeRateCountsFromTheEnd()
    ensures LagMin(-100) == 0 && LagMax(-100, 10) == -4
    ensures RegionStart(-100, 10) == 0 && RegionStop(-100, 10) == 48
  {
  }

  /**
   * Other negative rates give an empty window and so no pitch: above -24 Hz both lags
   * truncate to 0, and at -5000 Hz or below the end `lag_max * 8` lies before `lag_min`.
   */
  lemma NegativeRateWithoutWindow(corr: seq<real>, sampleRate: int)
    requires sampleRate < 0 && (sampleRate > -FMin || sampleRate <= -FMax)
    ensures PeakIndex(corr, sampleRate).None?
    ensures Pitch(corr, sampleRate) == None
  {
    TruncDivBounds(sampleRate, FMax);
    TruncDivBounds(sampleRate, FMin);
    assert RegionStop(sampleRate, |corr|) <= RegionStart(sampleRate, |corr|);
  }

  /**
   * The window runs to `lag_max * 8`, and the padded buffer holds the real correlation
   * up to `len(corr)`, so lags longer than `sample_rate / fmin` are searched as well: a
   * single peak at lag 900 is reported as 12.25 Hz, below `fmin`.
   */
  lemma PitchBelowFMin()
    ensures Pitch(seq(1000, i => if i == 900 then 1.0 else 0.0), 11025) == Some(Finite(12.25))
  {
    var corr: seq<real> := seq(1000, i => if i == 900 then 1.0 else 0.0);
    var padded := Padded(corr);
    DefaultRateWindow(|corr|);
    var region := padded[2..3672];
    var k := ArgMax(region);
    ArgMaxIsFirstMaximum(region);
    PaddedAt(corr, 900);
    assert region[898] == 1.0;
    assert k == 898 by {
      PaddedAt(corr, k + 2);
      assert region[k] == padded[k + 2];
    }
    PaddedAt(corr, 899);
    PaddedAt(corr, 901);
    assert PeakIndex(corr, 11025) == Some(900);
    assert padded[899] == 0.0 && padded[900] == 1.0 && padded[901] == 0.0;
    assert ParabolicInterpolation(padded, 900) == LagAt(900.0);
  }

  // ---------------------------------------------------------------------------------
  // Properties of parabolic_interpolation

  /** At either end of the spectrum, or outside it, the peak is returned unchanged. */
  lemma EdgePeakUnchanged(spectrum: seq<real>, peak: int)
    requires !(1 <= peak < |spectrum| - 1)
    ensures ParabolicInterpolation(spectrum, peak) == LagAt(peak as real)
  {
  }

  /** Equal neighbours put the vertex on the peak itself. */
  lemma SymmetricPeakUnchanged(spectrum: seq<real>, peak: int)
    requires 1 <= peak < |spectrum| - 1
    requires spectrum[peak - 1] == spectrum[peak + 1] != spectrum[peak]
    ensures ParabolicInterpolation(spectrum, peak) == LagAt(peak as real)
  {
  }

  /**
   * Three samples of a parabola `c - a * (x - v)^2` put the vertex exactly at `v`,
   * wherever `v` lies.
   */
  lemma {:induction false} VertexOfParabola(spectrum: seq<real>, peak: int, a: real, c: real, v: real)
    requires 1 <= peak < |spectrum| - 1 && a != 0.0
    requires forall j :: peak - 1 <= j <= peak + 1 ==>
      spectrum[j] == c - a * (j as real - v) * (j as real - v)
    ensures ParabolicInterpolation(spectrum, peak) == LagAt(v)
  {
    var d := peak as real - v;
    var ad := a * d;
    var add := ad * d;
    var alpha, beta, gamma := spectrum[peak - 1], spectrum[peak], spectrum[peak + 1];
    assert (peak - 1) as real - v == d - 1.0 && (peak + 1) as real - v == d + 1.0;
    assert a * (d - 1.0) == ad - a && a * (d + 1.0) == ad + a;
    assert (ad - a) * (d - 1.0) == add - 2.0 * ad + a;
    assert (ad + a) * (d + 1.0) == add + 2.0 * ad + a;
    assert alpha == c - (add - 2.0 * ad + a);
    assert beta == c - add;
    assert gamma == c - (add + 2.0 * ad + a);
    var num := 0.5 * (alpha - gamma);
    var den := alpha - 2.0 * beta + gamma;
    assert num == 2.0 * ad && den == -2.0 * a;
    assert num == -d * den;
    assert num / den == -d;
  }

  /**
   * At a local maximum the refined position stays within half a sample of the peak;
   * only a flat top, three equal samples, gives NaN.
   */
  lemma {:induction false} LocalMaximumWithinHalfSample(spectrum: seq<real>, peak: int)
    requires 1 <= peak < |spectrum| - 1
    requires spectrum[peak - 1] <= spectrum[peak] && spectrum[peak + 1] <= spectrum[peak]
    ensures var lag := ParabolicInterpolation(spectrum, peak);
      && (lag.LagNaN? <==> spectrum[peak - 1] == spectrum[peak] == spectrum[peak + 1])
      && !lag.LagInfinite?
      && (lag.LagAt? ==> peak as real - 0.5 <= lag.position <= peak as real + 0.5)
  {
    var alpha, beta, gamma := spectrum[peak - 1], spectrum[peak], spectrum[peak + 1];
    var num := 0.5 * (alpha - gamma);
    var den := alpha - 2.0 * beta + gamma;
    if den != 0.0 {
      assert den < 0.0;
      assert -den >= alpha - gamma && -den >= gamma - alpha;
      HalfBound(num, den);
    }
  }

  /** `|0.5 * x / d| <= 0.5` when `|x| <= -d`. */
  lemma HalfBound(num: real, den: real)
    requires den < 0.0
    requires -den >= 2.0 * num && -den >= -2.0 * num
    ensures -0.5 <= num / den <= 0.5
  {
    var q := num / den;
    assert num == q * den;
  }

  /**
   * When the peak has both neighbours inside the search region, a positive sample rate
   * gives either no finite pitch (a flat top) or one within half a lag of `rate / peak`.
   */
  lemma PitchNearPeakLag(corr: seq<real>, sampleRate: int)
    requires sampleRate > 0
    requires Pitch(corr, sampleRate).Some?
    requires RegionStart(sampleRate, |corr|) < PeakIndex(corr, sampleRate).value < RegionStop(sampleRate, |corr|) - 1
    ensures var peak := PeakIndex(corr, sampleRate).value as real;
      var f := Pitch(corr, sampleRate).value;
      f.NonFinite? || sampleRate as real / (peak + 0.5) <= f.value <= sampleRate as real / (peak - 0.5)
  {
    var peak := PeakIndex(corr, sampleRate).value;
    var padded := Padded(corr);
    PeakIsFirstMaximum(corr, sampleRate);
    LocalMaximumWithinHalfSample(padded, peak);
    var lag := ParabolicInterpolation(padded, peak);
    if lag.LagAt? {
      var x := lag.position;
      var r := sampleRate as real;
      assert x > 0.0;
      ReciprocalBetween(r, x, peak as real - 0.5, peak as real + 0.5);
    }
  }

  /** `r / x` lies between `r / hi` and `r / lo` for `0 < lo <= x <= hi` and `r > 0`. */
  lemma ReciprocalBetween(r: real, x: real, lo: real, hi: real)
    requires r > 0.0 && 0.0 < lo <= x <= hi
    ensures r / hi <= r / x <= r / lo
  {
    assert (r / x) * x == r;
    assert (r / hi) * hi == r;
    assert (r / lo) * lo == r;
  }
}
