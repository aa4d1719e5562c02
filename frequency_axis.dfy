/**
  The linear frequency axis of the spectrum plot: decibels to a vertical position,
  frequency to a horizontal position and back, frequency to the nearest transform bin,
  and the table of bin centre frequencies.
 */
module FrequencyAxis {
  import opened JsMath

  /**
    `linToY`: the vertical pixel of a decibel value on a plot of the given height,
    `(1 - t) * height` for the value's fraction `t` of the window `[minDb, maxDb]`:
    `minDb` at the bottom edge and `maxDb` at the top edge.
   */
  function LinToY(db: real, minDb: real, maxDb: real, height: real): (y: real)
    requires minDb < maxDb
    ensures db == minDb ==> y == height
    ensures db == maxDb ==> y == 0.0
    ensures minDb <= db <= maxDb && 0.0 <= height ==> 0.0 <= y <= height
  {
    ComplementShare(db - minDb, maxDb - minDb, height)
  }

  /** A higher level is drawn no lower on the plot: `linToY` is non-increasing in `db`. */
  lemma LinToYAntitone(db1: real, db2: real, minDb: real, maxDb: real, height: real)
    requires minDb < maxDb && db1 <= db2 && 0.0 <= height
    ensures LinToY(db2, minDb, maxDb, height) <= LinToY(db1, minDb, maxDb, height)
  {
    ComplementShareAntitone(db1 - minDb, db2 - minDb, maxDb - minDb, height);
  }

  /**
    One point of the spectrum curve (the loop body of `renderSpectrum`): the bin's
    frequency placed on the linear axis, its level clamped into the analyser's
    decibel window and placed on the vertical axis.
   */
  function CurvePoint(f: real, db: real, maxF: real, width: real,
                      minDb: real, maxDb: real, height: real): (p: (real, real))
    requires 0.0 < maxF && minDb < maxDb
    ensures 0.0 <= width ==> 0.0 <= p.0 <= width
    ensures 0.0 <= height ==> 0.0 <= p.1 <= height
  {
    (FreqToX(f, maxF, width), LinToY(Clamp(db, minDb, maxDb), minDb, maxDb, height))
  }

  /** The linear branch of `mapFreqToX`: frequency to horizontal pixel, clamped to the plot. */
  function FreqToX(freq: real, maxF: real, width: real): (x: real)
    requires 0.0 < maxF
    ensures 0.0 <= width ==> 0.0 <= x <= width
    ensures 0.0 <= width && 0.0 <= freq <= maxF ==> x == freq / maxF * width
  {
    var x := Clamp((freq / maxF) * width, 0.0, width);
    assert 0.0 <= width && 0.0 <= freq <= maxF ==> 0.0 <= freq / maxF * width <= width by {
      if 0.0 <= width && 0.0 <= freq <= maxF {
        MulBetweenZeroAndOne(freq / maxF, width);
      }
    }
    x
  }

  /** The linear branch of `xToFreq`: horizontal pixel to frequency, the pixel clamped to the plot first. */
  function XToFreq(x: real, maxF: real, width: real): (f: real)
    requires 0.0 < width
    ensures 0.0 <= maxF ==> 0.0 <= f <= maxF
    ensures 0.0 <= x <= width ==> f == x / width * maxF
  {
    var t := Clamp(x / width, 0.0, 1.0);
    assert 0.0 <= maxF ==> 0.0 <= t * maxF <= maxF by {
      if 0.0 <= maxF {
        MulBetweenZeroAndOne(t, maxF);
      }
    }
    assert 0.0 <= x <= width ==> x / width <= 1.0;
    t * maxF
  }

  /** Reading the frequency back from the pixel a frequency in range was drawn at gives that frequency. */
  lemma XToFreqOfFreqToX(f: real, maxF: real, width: real)
    requires 0.0 < maxF && 0.0 < width && 0.0 <= f <= maxF
    ensures XToFreq(FreqToX(f, maxF, width), maxF, width) == f
  {
    var q := f / maxF;
    var x := FreqToX(f, maxF, width);
    assert x == q * width;
    MulDivCancel(q, width);
    assert x / width == q;
    MulDivCancel(f, maxF);
  }

  /** Placing the frequency read from a pixel lands on that pixel, clamped to the plot. */
  lemma FreqToXOfXToFreq(x: real, maxF: real, width: real)
    requires 0.0 < maxF && 0.0 < width
    ensures FreqToX(XToFreq(x, maxF, width), maxF, width) == Clamp(x, 0.0, width)
  {
    var t := Clamp(x / width, 0.0, 1.0);
    var f := XToFreq(x, maxF, width);
    assert f == t * maxF;
    MulDivCancel(t, maxF);
    assert f / maxF == t;
    assert t * width == Clamp(x, 0.0, width) by {
      if x < 0.0 {
        assert x / width < 0.0;
      } else if x > width {
        assert x / width > 1.0;
      } else {
        assert x / width * width == x;
      }
    }
  }

  /** `freqToBin`: the transform bin nearest to a frequency. */
  function FreqToBin(freq: real, sampleRate: real, fftSize: nat): (bin: int)
    requires 0.0 < sampleRate
    ensures freq * fftSize as real / sampleRate - 0.5 < bin as real <= freq * fftSize as real / sampleRate + 0.5
  {
    Round(freq * fftSize as real / sampleRate)
  }

  /** The centre frequency of bin `i` in the table `rebuildBinFreqs` fills. */
  function BinFrequency(i: int, sampleRate: real, fftSize: nat): (f: real)
    requires 0 < fftSize
    ensures 0 <= i && 0.0 <= sampleRate ==> 0.0 <= f
    ensures i == 0 ==> f == 0.0
  {
    i as real * sampleRate / fftSize as real
  }

  /**
    `rebuildBinFreqs`: a table with one entry per analyser bin (`frequencyBinCount`,
    half the transform size), bin `i` holding `i * sampleRate / fftSize`.
   */
  method RebuildBinFreqs(sampleRate: real, fftSize: nat) returns (binFreqs: array<real>)
    requires 0 < fftSize
    ensures binFreqs.Length == fftSize / 2
    ensures forall i :: 0 <= i < binFreqs.Length ==> binFreqs[i] == BinFrequency(i, sampleRate, fftSize)
  {
    var n := fftSize / 2;
    binFreqs := new real[n];
    for i := 0 to n
      invariant forall j :: 0 <= j < i ==> binFreqs[j] == BinFrequency(j, sampleRate, fftSize)
    {
      binFreqs[i] := i as real * sampleRate / fftSize as real;
    }
  }

  /** Every bin of the table lies below the Nyquist frequency `sampleRate / 2`. */
  lemma {:induction false} BinFrequencyBelowNyquist(i: int, sampleRate: real, fftSize: nat)
    requires 0 < fftSize && 0.0 < sampleRate && 0 <= i < fftSize / 2
    ensures 0.0 <= BinFrequency(i, sampleRate, fftSize) < sampleRate / 2.0
  {
    var n := fftSize as real;
    assert 2 * i < fftSize;
    var q := i as real / n;
    assert 0.0 <= q < 0.5;
    assert BinFrequency(i, sampleRate, fftSize) == q * sampleRate;
    var d := 0.5 - q;
    assert 0.0 < d * sampleRate;
    assert sampleRate / 2.0 - q * sampleRate == d * sampleRate;
    assert 0.0 <= q * sampleRate;
  }

  /** Scaling the frequency of bin `i` back by `fftSize / sampleRate` gives exactly `i`. */
  lemma BinFrequencyScalesBack(i: int, sampleRate: real, fftSize: nat)
    requires 0 < fftSize && 0.0 < sampleRate
    ensures BinFrequency(i, sampleRate, fftSize) * fftSize as real / sampleRate == i as real
  {
    var n := fftSize as real;
    var a := i as real * sampleRate;
    MulDivCancel(a, n);
    MulDivCancel(i as real, sampleRate);
  }

  /** `freqToBin` inverts the table: the frequency of bin `i` maps back to bin `i`. */
  lemma {:induction false} FreqToBinOfBinFrequency(i: int, sampleRate: real, fftSize: nat)
    requires 0 < fftSize && 0.0 < sampleRate
    ensures FreqToBin(BinFrequency(i, sampleRate, fftSize), sampleRate, fftSize) == i
  {
    BinFrequencyScalesBack(i, sampleRate, fftSize);
  }
}
