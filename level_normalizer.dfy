/**
  Decibel normalisation for the two scrolling views: the frame's top level (the
  largest finite value, with a fixed fallback), the substitution of the window's
  floor for non-finite values, and the maps from decibels to a display intensity.
 */
module LevelNormalizer {
  import opened JsMath

  /** One value of the analyser's frame: a finite decibel level, or NaN / an infinity. */
  datatype Sample = Finite(db: real) | NonFinite

  /** The top level used when no value of the frame is finite (`topDb = -30`). */
  const FallbackTopDb: real := -30.0

  /** The smallest span the raw view divides by (`Math.max(maxDb - minDb, 1e-6)`). */
  const MinSpan: real := 0.000001

  /**
    The running maximum of the raw view's loop over a frame, from the left; `NonFinite`
    plays the loop's initial `-Infinity`, which every finite value exceeds.
   */
  function MaxFinite(s: seq<Sample>): (top: Sample)
    ensures top.NonFinite? <==> forall i :: 0 <= i < |s| ==> s[i].NonFinite?
    ensures top.Finite? ==> top in s
    ensures top.Finite? ==> forall i :: 0 <= i < |s| && s[i].Finite? ==> s[i].db <= top.db
  {
    if |s| == 0 then NonFinite
    else
      var top := MaxFinite(s[..|s| - 1]);
      var v := s[|s| - 1];
      assert s == s[..|s| - 1] + [v];
      if v.Finite? && (top.NonFinite? || v.db > top.db) then v else top
  }

  /**
    The frame's top level: the largest finite value, one of the frame's own values,
    or `FallbackTopDb` exactly when no value is finite.
   */
  function TopLevel(s: seq<Sample>): (top: real)
    ensures forall i :: 0 <= i < |s| && s[i].Finite? ==> s[i].db <= top
    ensures (exists i :: 0 <= i < |s| && s[i].Finite?) ==> Finite(top) in s
    ensures (forall i :: 0 <= i < |s| ==> s[i].NonFinite?) ==> top == FallbackTopDb
  {
    var m := MaxFinite(s);
    if m.Finite? then m.db else FallbackTopDb
  }

  /** The top-level loop of `renderRawSpectrogram` over the frame it just read. */
  method TopDb(freqData: array<Sample>) returns (topDb: real)
    ensures topDb == TopLevel(freqData[..])
  {
    var running := NonFinite;
    for i := 0 to freqData.Length
      invariant running == MaxFinite(freqData[..i])
    {
      assert freqData[..i + 1][..i] == freqData[..i];
      var v := freqData[i];
      if v.Finite? && (running.NonFinite? || v.db > running.db) {
        running := v;
      }
    }
    assert freqData[..freqData.Length] == freqData[..];
    topDb := if running.Finite? then running.db else FallbackTopDb;
  }

  /** The value the raw view reads for a sample: the sample itself, or the window's floor when it is not finite. */
  function Substitute(s: Sample, floorDb: real): (db: real)
    ensures s.Finite? ==> db == s.db
    ensures s.NonFinite? ==> db == floorDb
  {
    if s.Finite? then s.db else floorDb
  }

  /**
    The raw view's intensity of a sample, `(db - minDb) / max(maxDb - minDb, 1e-6)`
    with `maxDb = topDb`, `minDb = topDb - range` and a non-finite sample read as
    `minDb`. It is not clamped here; the colour map clamps it.
   */
  function RawIntensity(s: Sample, topDb: real, range: real): (v: real)
    ensures s.NonFinite? ==> v == 0.0
    ensures s.Finite? && topDb - range <= s.db ==> 0.0 <= v
    ensures s.Finite? && s.db <= topDb - range ==> v <= 0.0
    ensures s == Finite(topDb - range) ==> v == 0.0
    ensures s.Finite? && s.db <= topDb && 0.0 < range ==> v <= 1.0
    ensures s == Finite(topDb) && MinSpan <= range ==> v == 1.0
  {
    var minDb := topDb - range;
    var maxDb := topDb;
    var db := Substitute(s, minDb);
    var span := Max(maxDb - minDb, MinSpan);
    assert minDb <= db ==> 0.0 <= (db - minDb) / span by {
      if minDb <= db {
        DivPositive(db - minDb, span);
      }
    }
    assert db <= minDb ==> (db - minDb) / span <= 0.0 by {
      if db <= minDb {
        DivPositive(db - minDb, span);
      }
    }
    assert db == minDb ==> (db - minDb) / span == 0.0 by {
      if db == minDb {
        Fraction(db - minDb, span);
      }
    }
    assert db <= maxDb && 0.0 < range ==> (db - minDb) / span <= 1.0 by {
      if db <= maxDb && 0.0 < range {
        if minDb <= db {
          DivBetweenZeroAndOne(db - minDb, span);
        } else {
          DivPositive(db - minDb, span);
        }
      }
    }
    (db - minDb) / span
  }

  /** A louder finite sample is never drawn dimmer in the raw view. */
  lemma RawIntensityMonotone(db1: real, db2: real, topDb: real, range: real)
    requires db1 <= db2
    ensures RawIntensity(Finite(db1), topDb, range) <= RawIntensity(Finite(db2), topDb, range)
  {
    var minDb := topDb - range;
    DivMonotone(db1 - minDb, db2 - minDb, Max(topDb - minDb, MinSpan));
  }

  /**
    The mel view's intensity, `clamp((m - minDb) / max(range, 1), 0, 1)`: always in
    [0,1], 0 at or below the floor `minDb`, and 1 at or above `minDb + range` when
    the range is at least 1.
   */
  function MelIntensity(m: real, minDb: real, range: real): (v: real)
    ensures 0.0 <= v <= 1.0
    ensures m <= minDb ==> v == 0.0
    ensures 1.0 <= range && minDb + range <= m ==> v == 1.0
  {
    var span := Max(range, 1.0);
    assert m <= minDb ==> (m - minDb) / span <= 0.0 by {
      if m <= minDb {
        DivPositive(m - minDb, span);
      }
    }
    assert 1.0 <= range && minDb + range <= m ==> (m - minDb) / span >= 1.0 by {
      if 1.0 <= range && minDb + range <= m {
        assert span == range;
        MulDivCancel(1.0, range);
        assert range / span == 1.0;
        DivMonotone(range, m - minDb, span);
      }
    }
    Clamp((m - minDb) / span, 0.0, 1.0)
  }

  /** The mel intensity never decreases as the band level rises. */
  lemma MelIntensityMonotone(m1: real, m2: real, minDb: real, range: real)
    requires m1 <= m2
    ensures MelIntensity(m1, minDb, range) <= MelIntensity(m2, minDb, range)
  {
    DivMonotone(m1 - minDb, m2 - minDb, Max(range, 1.0));
  }

  /** `Math.max(...mels)`: the largest of a non-empty sequence of levels. */
  function MaxOf(s: seq<real>): (top: real)
    requires |s| > 0
    ensures top in s
    ensures forall i :: 0 <= i < |s| ==> s[i] <= top
  {
    if |s| == 1 then s[0]
    else
      var rest := MaxOf(s[1..]);
      assert s == [s[0]] + s[1..];
      Max(s[0], rest)
  }
}
