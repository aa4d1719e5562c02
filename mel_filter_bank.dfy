/**
  The mel filterbank: triangular weighting vectors over the analyser's bins, built
  from band edges given as frequencies, and their application to a power spectrum.
  The band edges themselves come from the mel scale (`hzToMel`/`melToHz`), which is
  transcendental and enters here as the sequence `melPointsHz`.
 */
module MelFilterBank {
  import opened JsMath

  /** The floor that keeps a silent band's sum away from zero before the logarithm (`eps`). */
  const Eps: real := 0.0000000001

  /** A sequence that never decreases. */
  ghost predicate NonDecreasing(s: seq<int>) {
    forall i, j :: 0 <= i <= j < |s| ==> s[i] <= s[j]
  }

  ghost predicate NonDecreasingReals(s: seq<real>) {
    forall i, j :: 0 <= i <= j < |s| ==> s[i] <= s[j]
  }

  /** The bin a band edge falls in: `Math.floor((fftSize + 1) * f / sampleRate)`. */
  function BinPoint(f: real, sampleRate: real, fftSize: nat): int
    requires 0.0 < sampleRate
  {
    Floor((fftSize + 1) as real * f / sampleRate)
  }

  /** `melPoints.map(...)`: every band edge turned into its bin. */
  function BinPoints(melPointsHz: seq<real>, sampleRate: real, fftSize: nat): (points: seq<int>)
    requires 0.0 < sampleRate
    ensures |points| == |melPointsHz|
    ensures forall i :: 0 <= i < |points| ==> points[i] == BinPoint(melPointsHz[i], sampleRate, fftSize)
  {
    seq(|melPointsHz|, i requires 0 <= i < |melPointsHz| => BinPoint(melPointsHz[i], sampleRate, fftSize))
  }

  /** Band edges in increasing frequency give bin edges in non-decreasing order. */
  lemma BinPointsNonDecreasing(melPointsHz: seq<real>, sampleRate: real, fftSize: nat)
    requires 0.0 < sampleRate && NonDecreasingReals(melPointsHz)
    ensures NonDecreasing(BinPoints(melPointsHz, sampleRate, fftSize))
  {
    var points := BinPoints(melPointsHz, sampleRate, fftSize);
    var scale := (fftSize + 1) as real / sampleRate;
    forall i, j | 0 <= i <= j < |points| ensures points[i] <= points[j] {
      var x, y := (fftSize + 1) as real * melPointsHz[i], (fftSize + 1) as real * melPointsHz[j];
      assert x <= y;
      DivMonotone(x, y, sampleRate);
      FloorMonotone(x / sampleRate, y / sampleRate);
    }
  }

  /**
    The weight of bin `k` in the filter whose edges are the bins `left`, `center`
    and `right`, in a filterbank of `nFftBins` bins: the rising slope on
    `[left, center)`, the falling slope on `[center, right)`, each denominator
    floored at 1, and 0 for every other bin and every bin outside the bank.
   */
  function Weight(nFftBins: nat, left: int, center: int, right: int, k: int): (w: real)
    ensures 0.0 <= w <= 1.0
    ensures left <= center <= right && !(0 <= k < nFftBins && left <= k < right) ==> w == 0.0
  {
    if 0 <= k < nFftBins && left <= k < center then
      Rising(left, center, k)
    else if 0 <= k < nFftBins && center <= k < right then
      Falling(center, right, k)
    else
      0.0
  }

  /** The rising side of a triangle, `(k - left) / max(center - left, 1)`. */
  function Rising(left: int, center: int, k: int): (w: real)
    requires left <= k < center
    ensures 0.0 <= w < 1.0
  {
    DivBetweenZeroAndOne((k - left) as real, (center - left) as real);
    (k - left) as real / Max((center - left) as real, 1.0)
  }

  /** The falling side of a triangle, `(right - k) / max(right - center, 1)`. */
  function Falling(center: int, right: int, k: int): (w: real)
    requires center <= k < right
    ensures 0.0 < w <= 1.0
  {
    DivBetweenZeroAndOne((right - k) as real, (right - center) as real);
    DivPositive((right - k) as real, (right - center) as real);
    (right - k) as real / Max((right - center) as real, 1.0)
  }

  /** The whole weighting vector of one filter. */
  function Filter(nFftBins: nat, left: int, center: int, right: int): (f: seq<real>)
    ensures |f| == nFftBins
    ensures forall k :: 0 <= k < nFftBins ==> f[k] == Weight(nFftBins, left, center, right, k)
  {
    seq(nFftBins, k => Weight(nFftBins, left, center, right, k))
  }

  /**
    The triangle's corners: zero at its left edge, exactly one at its centre, and
    nothing at all when the three edges coincide.
   */
  lemma FilterCorners(nFftBins: nat, left: int, center: int, right: int)
    ensures left < center && 0 <= left < nFftBins ==> Weight(nFftBins, left, center, right, left) == 0.0
    ensures center < right && 0 <= center < nFftBins ==> Weight(nFftBins, left, center, right, center) == 1.0
    ensures left == center == right ==> forall k :: Weight(nFftBins, left, center, right, k) == 0.0
  {
  }

  /**
    The support of a filter with ordered edges: a bin in the bank carries weight
    exactly when it lies strictly between the outer edges, or it is the left edge of
    a triangle whose rising side is empty.
   */
  lemma FilterSupport(nFftBins: nat, left: int, center: int, right: int, k: int)
    requires left <= center <= right && 0 <= k < nFftBins
    ensures Weight(nFftBins, left, center, right, k) > 0.0
        <==> (left < k < right || (k == left == center && center < right))
  {
    if left <= k < center {
      DivPositive((k - left) as real, (center - left) as real);
    }
  }

  /**
    The filterbank `buildMelFilterBank` returns for the bin edges `binPoints`:
    filter `m` (counted from 0) spans `binPoints[m]`, `binPoints[m + 1]`, `binPoints[m + 2]`.
   */
  function Bank(fftSize: nat, binPoints: seq<int>): (bank: seq<seq<real>>)
    requires 2 <= |binPoints|
    ensures |bank| == |binPoints| - 2
    ensures forall m :: 0 <= m < |bank| ==> bank[m] == Filter(fftSize / 2, binPoints[m], binPoints[m + 1], binPoints[m + 2])
  {
    seq(|binPoints| - 2, m requires 0 <= m < |binPoints| - 2 =>
      Filter(fftSize / 2, binPoints[m], binPoints[m + 1], binPoints[m + 2]))
  }

  /**
    Filters two or more places apart never share a bin: with ordered edges each bin
    is covered by at most two neighbouring filters.
   */
  lemma FiltersApartAreDisjoint(fftSize: nat, binPoints: seq<int>, m: nat, j: nat, k: nat)
    requires 2 <= |binPoints| && NonDecreasing(binPoints)
    requires m + 2 <= j < |binPoints| - 2 && k < fftSize / 2
    ensures Bank(fftSize, binPoints)[m][k] == 0.0 || Bank(fftSize, binPoints)[j][k] == 0.0
  {
    var n := fftSize / 2;
    var bank := Bank(fftSize, binPoints);
    assert binPoints[m] <= binPoints[m + 1] <= binPoints[m + 2] <= binPoints[j];
    assert binPoints[j] <= binPoints[j + 1] <= binPoints[j + 2];
    assert bank[m][k] == Weight(n, binPoints[m], binPoints[m + 1], binPoints[m + 2], k);
    assert bank[j][k] == Weight(n, binPoints[j], binPoints[j + 1], binPoints[j + 2], k);
  }

  /** One filter: a zero vector with the rising and then the falling side written in. */
  method BuildFilter(nFftBins: nat, left: int, center: int, right: int) returns (fbank: array<real>)
    ensures fbank[..] == Filter(nFftBins, left, center, right)
  {
    fbank := new real[nFftBins](_ => 0.0);
    var k := left;
    while k < center
      invariant fbank.Length == nFftBins
      invariant left <= k && (k <= center || k == left)
      invariant forall j :: 0 <= j < nFftBins ==>
        fbank[j] == (if left <= j < k then Rising(left, center, j) else 0.0)
    {
      if 0 <= k < nFftBins {
        fbank[k] := (k - left) as real / Max((center - left) as real, 1.0);
      }
      k := k + 1;
    }
    k := center;
    while k < right
      invariant fbank.Length == nFftBins
      invariant center <= k && (k <= right || k == center)
      invariant forall j :: 0 <= j < nFftBins ==>
        fbank[j] == (if left <= j < center then Rising(left, center, j)
                     else if center <= j < k then Falling(center, right, j) else 0.0)
    {
      if 0 <= k < nFftBins {
        fbank[k] := (right - k) as real / Max((right - center) as real, 1.0);
      }
      k := k + 1;
    }
    forall j | 0 <= j < nFftBins ensures fbank[j] == Weight(nFftBins, left, center, right, j) {
    }
  }

  /**
    `buildMelFilterBank` from the band edges on: `nMels` filters, each with one
    weight per analyser bin (`floor(fftSize / 2)`), exactly the bank of the bin edges.
   */
  method BuildMelFilterBank(sampleRate: real, fftSize: nat, nMels: nat, melPointsHz: seq<real>)
    returns (filters: seq<array<real>>)
    requires 0.0 < sampleRate && |melPointsHz| == nMels + 2
    ensures |filters| == nMels
    ensures forall m :: 0 <= m < nMels ==> filters[m].Length == fftSize / 2
    ensures forall m :: 0 <= m < nMels ==> filters[m][..] == Bank(fftSize, BinPoints(melPointsHz, sampleRate, fftSize))[m]
  {
    var nFftBins := fftSize / 2;
    var binPoints := BinPoints(melPointsHz, sampleRate, fftSize);
    ghost var bank := Bank(fftSize, binPoints);
    filters := [];
    for m := 1 to nMels + 1
      invariant |filters| == m - 1
      invariant forall i :: 0 <= i < m - 1 ==> filters[i][..] == bank[i]
    {
      var fbank := BuildFilter(nFftBins, binPoints[m - 1], binPoints[m], binPoints[m + 1]);
      filters := filters + [fbank];
    }
    forall m | 0 <= m < nMels ensures filters[m].Length == nFftBins {
      assert |filters[m][..]| == |bank[m]|;
    }
  }

  /** The sum `w[0] * p[0] + ... + w[n-1] * p[n-1]`, accumulated from the left as the script does. */
  function Dot(w: seq<real>, p: seq<real>, n: nat): real
    requires n <= |w| && n <= |p|
  {
    if n == 0 then 0.0 else Dot(w, p, n - 1) + w[n - 1] * p[n - 1]
  }

  /** The plain sum of the first `n` powers. */
  function Total(p: seq<real>, n: nat): real
    requires n <= |p|
  {
    if n == 0 then 0.0 else Total(p, n - 1) + p[n - 1]
  }

  /**
    A band collects no negative energy and never more than the whole spectrum: with
    weights in [0,1] and non-negative powers, the band sum lies in [0, total power].
   */
  lemma {:induction false} DotBounds(w: seq<real>, p: seq<real>, n: nat)
    requires n <= |w| && n <= |p|
    requires forall k :: 0 <= k < n ==> 0.0 <= w[k] <= 1.0 && 0.0 <= p[k]
    ensures 0.0 <= Dot(w, p, n) <= Total(p, n)
  {
    if n > 0 {
      DotBounds(w, p, n - 1);
      MulBetweenZeroAndOne(w[n - 1], p[n - 1]);
      var term := w[n - 1] * p[n - 1];
      assert 0.0 <= term <= p[n - 1];
      assert Dot(w, p, n) == Dot(w, p, n - 1) + term;
      assert Total(p, n) == Total(p, n - 1) + p[n - 1];
    }
  }

  /** A silent spectrum (every power zero) gives every band a zero sum. */
  lemma {:induction false} DotOfSilence(w: seq<real>, p: seq<real>, n: nat)
    requires n <= |w| && n <= |p|
    requires forall k :: 0 <= k < n ==> p[k] == 0.0
    ensures Dot(w, p, n) == 0.0
  {
    if n > 0 {
      DotOfSilence(w, p, n - 1);
    }
  }

  /**
    The decibel level of one band: its power sum floored at `Eps` and handed to
    `toDb`, which stands for `10 * Math.log10`.
   */
  function BandLevel(w: seq<real>, p: seq<real>, toDb: real -> real): (level: real)
    requires |w| == |p|
    ensures Eps <= Dot(w, p, |p|) ==> level == toDb(Dot(w, p, |p|))
    ensures Dot(w, p, |p|) < Eps ==> level == toDb(Eps)
  {
    toDb(Max(Dot(w, p, |p|), Eps))
  }

  /** A silent spectrum hands the logarithm exactly `Eps`, whatever the filter. */
  lemma {:induction false} BandLevelArgument(w: seq<real>, p: seq<real>, toDb: real -> real)
    requires |w| == |p|
    ensures (forall k :: 0 <= k < |p| ==> p[k] == 0.0) ==> BandLevel(w, p, toDb) == toDb(Eps)
  {
    if forall k :: 0 <= k < |p| ==> p[k] == 0.0 {
      DotOfSilence(w, p, |p|);
    }
  }

  /**
    The filter application of `renderMel`: one level per filter, in filter order,
    each the floored band sum of that filter against the power spectrum.
   */
  method ApplyMelFilters(filters: seq<array<real>>, power: array<real>, toDb: real -> real)
    returns (mels: array<real>)
    requires forall m :: 0 <= m < |filters| ==> filters[m].Length == power.Length
    ensures mels.Length == |filters|
    ensures forall m :: 0 <= m < |filters| ==> mels[m] == BandLevel(filters[m][..], power[..], toDb)
  {
    var n := power.Length;
    mels := new real[|filters|];
    for m := 0 to |filters|
      invariant forall i :: 0 <= i < m ==> mels[i] == BandLevel(filters[i][..], power[..], toDb)
    {
      var fbank := filters[m];
      var sum := 0.0;
      for k := 0 to n
        invariant sum == Dot(fbank[..], power[..], k)
      {
        sum := sum + fbank[k] * power[k];
      }
      mels[m] := toDb(Max(sum, Eps));
    }
  }
}
