/**
  The numeric part of one frame of the two spectrogram views: the power spectrum
  and mel levels for the mel view, the top level for the raw view, the row-to-index
  maps (row 0 at the top shows the highest band or bin), and the column each view
  appends to its raster. Only the linear raw view is covered.
 */
module RenderPipeline {
  import opened JsMath
  import opened LevelNormalizer
  import opened MelFilterBank
  import opened ColorMap
  import opened ScrollingRaster

  /** The band row `row` of a column `height` rows tall shows: `floor((1 - row/height) * (count - 1))`. */
  function MelRowIndex(row: int, height: nat, count: nat): (i: int)
    requires 0 <= row < height && 1 <= count
    ensures 0 <= i < count
    ensures row == 0 ==> i == count - 1
  {
    Floor(ComplementShare(row as real, height as real, (count - 1) as real))
  }

  /** The bin row `row` shows in the linear raw view: `round((1 - row/height) * (nbin - 1))`. */
  function RawRowBin(row: int, height: nat, nbin: nat): (i: int)
    requires 0 <= row < height && 1 <= nbin
    ensures 0 <= i < nbin
    ensures row == 0 ==> i == nbin - 1
  {
    Round(ComplementShare(row as real, height as real, (nbin - 1) as real))
  }

  /** A lower row never shows a higher band or bin. */
  lemma {:induction false} RowIndicesDescend(row1: int, row2: int, height: nat, count: nat)
    requires 0 <= row1 <= row2 < height && 1 <= count
    ensures MelRowIndex(row2, height, count) <= MelRowIndex(row1, height, count)
    ensures RawRowBin(row2, height, count) <= RawRowBin(row1, height, count)
  {
    var h, n := height as real, (count - 1) as real;
    ComplementShareAntitone(row1 as real, row2 as real, h, n);
    FloorMonotone(ComplementShare(row2 as real, h, n), ComplementShare(row1 as real, h, n));
    RoundMonotone(ComplementShare(row2 as real, h, n), ComplementShare(row1 as real, h, n));
  }

  /**
    The mel view's colour for a row: the band the row shows, normalised against the
    floor `maxDb - melDbRange`, `maxDb` being the loudest band (`Math.max(...mels)`).
   */
  function MelColumnColor(mels: seq<real>, maxDb: real, melDbRange: real, height: nat, row: int): (c: Rgb)
    requires 1 <= |mels| && 0 <= row < height
    ensures InByteRange(c)
    ensures mels[MelRowIndex(row, height, |mels|)] <= maxDb - melDbRange ==> c == Palette[0]
    ensures 1.0 <= melDbRange && maxDb <= mels[MelRowIndex(row, height, |mels|)] ==> c == Palette[|Palette| - 1]
  {
    InfernoColor(MelIntensity(mels[MelRowIndex(row, height, |mels|)], maxDb - melDbRange, melDbRange))
  }

  /** The linear raw view's colour for a row: the bin the row shows, normalised against the frame's top level. */
  function RawColumnColor(frame: seq<Sample>, topDb: real, melDbRange: real, height: nat, row: int): (c: Rgb)
    requires 1 <= |frame| && 0 <= row < height
    ensures InByteRange(c)
    ensures frame[RawRowBin(row, height, |frame|)].NonFinite? ==> c == Palette[0]
    ensures frame[RawRowBin(row, height, |frame|)].Finite? && frame[RawRowBin(row, height, |frame|)].db <= topDb - melDbRange ==> c == Palette[0]
    ensures frame[RawRowBin(row, height, |frame|)] == Finite(topDb) && MinSpan <= melDbRange ==> c == Palette[|Palette| - 1]
  {
    InfernoColor(RawIntensity(frame[RawRowBin(row, height, |frame|)], topDb, melDbRange))
  }

  /**
    Normalisation is relative to the frame's own top: a frame whose bands are all at
    one level, silence included, is drawn in the brightest palette entry.
   */
  lemma {:induction false} UniformMelFrameIsBrightest(mels: seq<real>, melDbRange: real, height: nat, row: int)
    requires 1 <= |mels| && 0 <= row < height && 1.0 <= melDbRange
    requires forall i :: 0 <= i < |mels| ==> mels[i] == mels[0]
    ensures MelColumnColor(mels, MaxOf(mels), melDbRange, height, row) == Palette[|Palette| - 1]
  {
    var top := MaxOf(mels);
    assert top == mels[0];
    assert mels[MelRowIndex(row, height, |mels|)] == top;
    assert MelIntensity(top, top - melDbRange, melDbRange) == 1.0;
  }

  /**
    The same holds in the raw view: a frame whose bins are all at one finite level is
    drawn in the brightest palette entry.
   */
  lemma {:induction false} UniformRawFrameIsBrightest(frame: seq<Sample>, level: real, melDbRange: real, height: nat, row: int)
    requires 1 <= |frame| && 0 <= row < height && MinSpan <= melDbRange
    requires forall i :: 0 <= i < |frame| ==> frame[i] == Finite(level)
    ensures RawColumnColor(frame, TopLevel(frame), melDbRange, height, row) == Palette[|Palette| - 1]
  {
    var top := TopLevel(frame);
    assert Finite(top) in frame;
    assert top == level;
    assert RawIntensity(frame[RawRowBin(row, height, |frame|)], top, melDbRange) == 1.0;
  }

  /**
    Without a dynamic range a uniform frame goes dark instead: both views then read
    every band or bin as sitting on the floor, intensity 0, the darkest palette entry.
   */
  lemma {:induction false} UniformFrameWithoutRangeIsDarkest(mels: seq<real>, frame: seq<Sample>, level: real, height: nat, row: int)
    requires 1 <= |mels| && 1 <= |frame| && 0 <= row < height
    requires forall i :: 0 <= i < |mels| ==> mels[i] == mels[0]
    requires forall i :: 0 <= i < |frame| ==> frame[i] == Finite(level)
    ensures MelColumnColor(mels, MaxOf(mels), 0.0, height, row) == Palette[0]
    ensures RawColumnColor(frame, TopLevel(frame), 0.0, height, row) == Palette[0]
  {
    var top := MaxOf(mels);
    assert top == mels[0];
    assert mels[MelRowIndex(row, height, |mels|)] == top;
    var rawTop := TopLevel(frame);
    assert Finite(rawTop) in frame;
    assert rawTop == level;
    assert RawIntensity(frame[RawRowBin(row, height, |frame|)], rawTop, 0.0) == 0.0;
  }

  /** The values the power loop of `renderMel` produces: the square of each bin's magnitude. */
  function Power(frame: seq<Sample>, magnitude: Sample -> real): (power: seq<real>)
    ensures |power| == |frame|
    ensures forall i :: 0 <= i < |frame| ==> power[i] == magnitude(frame[i]) * magnitude(frame[i])
    ensures forall i :: 0 <= i < |frame| ==> 0.0 <= power[i]
  {
    seq(|frame|, i requires 0 <= i < |frame| => magnitude(frame[i]) * magnitude(frame[i]))
  }

  /**
    The power loop of `renderMel`; `magnitude` stands for `Math.pow(10, db / 20)`.
    Every power is a square, so none is negative.
   */
  method PowerSpectrum(freqData: array<Sample>, magnitude: Sample -> real) returns (power: array<real>)
    ensures power[..] == Power(freqData[..], magnitude)
  {
    power := new real[freqData.Length];
    for i := 0 to freqData.Length
      invariant forall j :: 0 <= j < i ==> power[j] == magnitude(freqData[j]) * magnitude(freqData[j])
    {
      var mag := magnitude(freqData[i]);
      power[i] := mag * mag;
    }
    assert forall j :: 0 <= j < power.Length ==> power[..][j] == Power(freqData[..], magnitude)[j];
  }

  /** The current contents of a filterbank held as arrays. */
  ghost function Weights(filters: seq<array<real>>): (bank: seq<seq<real>>)
    reads set m | 0 <= m < |filters| :: filters[m]
    ensures |bank| == |filters|
    ensures forall m :: 0 <= m < |filters| ==> bank[m] == filters[m][..]
  {
    seq(|filters|, m requires 0 <= m < |filters| reads set i | 0 <= i < |filters| :: filters[i] =>
      filters[m][..])
  }

  /** The mel levels of a frame: one per filter, the filter's band level against the frame's power. */
  ghost function MelLevels(bank: seq<seq<real>>, power: seq<real>, toDb: real -> real): (mels: seq<real>)
    requires forall m :: 0 <= m < |bank| ==> |bank[m]| == |power|
    ensures |mels| == |bank|
    ensures forall m :: 0 <= m < |bank| ==> mels[m] == BandLevel(bank[m], power, toDb)
  {
    seq(|bank|, m requires 0 <= m < |bank| => BandLevel(bank[m], power, toDb))
  }

  /**
    The numeric part of `renderMel`: power spectrum, mel levels, their maximum, then
    one column appended to the mel raster.
   */
  method RenderMel(raster: Raster, melFilters: seq<array<real>>, freqData: array<Sample>,
                   magnitude: Sample -> real, toDb: real -> real, melDbRange: real)
    requires raster.Valid() && 1 <= |melFilters|
    requires forall m :: 0 <= m < |melFilters| ==> melFilters[m].Length == freqData.Length
    modifies raster.pixels
    ensures forall row, col :: 0 <= row < raster.height && 0 <= col < raster.width - 1 ==>
      raster.pixels[row, col] == old(raster.pixels[row, col + 1])
    ensures forall row :: 0 <= row < raster.height ==>
      raster.pixels[row, raster.width - 1] ==
        Opaque(MelColumnColor(MelLevels(Weights(melFilters), Power(freqData[..], magnitude), toDb),
                              MaxOf(MelLevels(Weights(melFilters), Power(freqData[..], magnitude), toDb)),
                              melDbRange, raster.height, row))
  {
    var power := PowerSpectrum(freqData, magnitude);
    var mels := ApplyMelFilters(melFilters, power, toDb);
    var levels := mels[..];
    assert levels == MelLevels(Weights(melFilters), Power(freqData[..], magnitude), toDb);
    var maxDb := MaxOf(levels);
    var h := raster.height;
    raster.AppendColumn((row: int) requires 0 <= row < h => MelColumnColor(levels, maxDb, melDbRange, h, row));
  }

  /**
    The numeric part of `renderRawSpectrogram` in the linear scale: the frame's top
    level, then one column appended to the raw raster.
   */
  method RenderRawSpectrogram(raster: Raster, freqData: array<Sample>, melDbRange: real)
    requires raster.Valid() && 1 <= freqData.Length
    modifies raster.pixels
    ensures forall row, col :: 0 <= row < raster.height && 0 <= col < raster.width - 1 ==>
      raster.pixels[row, col] == old(raster.pixels[row, col + 1])
    ensures forall row :: 0 <= row < raster.height ==>
      raster.pixels[row, raster.width - 1] ==
        Opaque(RawColumnColor(freqData[..], TopLevel(freqData[..]), melDbRange, raster.height, row))
  {
    var topDb := TopDb(freqData);
    var frame := freqData[..];
    var h := raster.height;
    raster.AppendColumn((row: int) requires 0 <= row < h => RawColumnColor(frame, topDb, melDbRange, h, row));
  }
}
