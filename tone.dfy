/** The tone mapper: a 256-entry lookup table built from five settings (threshold bias,
    contrast, midtones, highlights, invert) and applied to every luminance sample. */
module Tone {

  import opened Bytes

  datatype Adjustments = Adjustments(contrast: real, midtones: real, highlights: real, invert: bool, threshold: real)

  /** The contrast value the mapper treats as "no contrast". */
  const NeutralContrast: real := 45.0

  /** The default settings: contrast 45, midtones 50, highlights 50, no inversion, threshold 128. */
  const Neutral := Adjustments(NeutralContrast, 50.0, 50.0, false, 128.0)

  /** The contrast factor 259(c+255) / (255(259-c)); c = 259 is its pole. */
  function ContrastFactor(c: real): real
    requires c != 259.0
  {
    (259.0 * (c + 255.0)) / (255.0 * (259.0 - c))
  }

  function Clamp(v: real, lo: real, hi: real): real {
    if v < lo then lo else if v > hi then hi else v
  }

  /** Contrast stretch about 128, skipped when contrast is the neutral value. */
  function Stretch(c: real, v: real): real
    requires c != 259.0
  {
    if c != NeutralContrast then ContrastFactor(c) * (v - 128.0) + 128.0 else v
  }

  /** The tone split on a normalised level: the lower half scaled by midtones/50, the
      upper half scaled about 0.5 by highlights/50. */
  function Toned(p: Adjustments, norm: real): real {
    if norm < 0.5 then norm * (p.midtones / 50.0) else 0.5 + (norm - 0.5) * (p.highlights / 50.0)
  }

  /** The level for input v before inversion: bias by 128 - threshold, stretch, clamp to
      [0, 255], normalise, split the tones, and scale back to [0, 255]. */
  function Curve(p: Adjustments, v: real): real
    requires p.contrast != 259.0
  {
    Toned(p, Clamp(Stretch(p.contrast, v + (128.0 - p.threshold)), 0.0, 255.0) / 255.0) * 255.0
  }

  /** The level stored for input i, inverted when asked. */
  function Level(p: Adjustments, i: int): real
    requires p.contrast != 259.0
  {
    var v := Curve(p, i as real);
    if p.invert then 255.0 - v else v
  }

  /** Table entry i: the level stored into a clamped byte. */
  function LutEntry(p: Adjustments, i: int): Byte
    requires p.contrast != 259.0
  {
    ToByte(Level(p, i))
  }

  /** Builds the whole table, entry by entry. */
  method BuildLut(p: Adjustments) returns (lut: array<Byte>)
    requires p.contrast != 259.0
    ensures fresh(lut) && lut.Length == 256
    ensures forall i :: 0 <= i < 256 ==> lut[i] == LutEntry(p, i)
  {
    lut := new Byte[256];
    for i := 0 to 256
      invariant forall k :: 0 <= k < i ==> lut[k] == LutEntry(p, k)
    {
      var v := i as real + (128.0 - p.threshold);
      if p.contrast != NeutralContrast {
        v := ContrastFactor(p.contrast) * (v - 128.0) + 128.0;
      }
      v := Clamp(v, 0.0, 255.0);
      var norm := v / 255.0;
      if norm < 0.5 {
        norm := norm * (p.midtones / 50.0);
      } else {
        norm := 0.5 + (norm - 0.5) * (p.highlights / 50.0);
      }
      v := norm * 255.0;
      assert v == Curve(p, i as real);
      if p.invert {
        v := 255.0 - v;
      }
      lut[i] := ToByte(v);
    }
  }

  /** The tone mapper: a fresh buffer whose every sample is the table entry of the input
      sample at the same index. */
  method ApplyAdjustments(gray: array<Byte>, p: Adjustments) returns (adjusted: array<Byte>)
    requires p.contrast != 259.0
    ensures fresh(adjusted) && adjusted.Length == gray.Length
    ensures forall i :: 0 <= i < gray.Length ==> adjusted[i] == LutEntry(p, gray[i])
  {
    adjusted := new Byte[gray.Length](i reads gray requires 0 <= i < gray.Length => gray[i]);
    var lut := BuildLut(p);
    for i := 0 to gray.Length
      invariant forall k :: 0 <= k < i ==> adjusted[k] == LutEntry(p, gray[k])
      invariant forall k :: 0 <= k < 256 ==> lut[k] == LutEntry(p, k)
    {
      adjusted[i] := lut[gray[i]];
    }
  }

  /** With the default settings the table is the identity. */
  lemma NeutralIsIdentity(i: int)
    requires 0 <= i <= 255
    ensures LutEntry(Neutral, i) == i
  {
    var norm := i as real / 255.0;
    assert Curve(Neutral, i as real) == i as real by {
      if norm < 0.5 {
        assert norm * (50.0 / 50.0) * 255.0 == i as real;
      } else {
        assert (0.5 + (norm - 0.5) * (50.0 / 50.0)) * 255.0 == i as real;
      }
    }
    ToByteIntegral(i);
  }

  /** Contrast 0 has factor exactly 1, so it maps like the value treated as neutral. */
  lemma ZeroContrastIsNeutral(p: Adjustments, v: real)
    requires p.contrast == 0.0
    ensures Curve(p, v) == Curve(p.(contrast := NeutralContrast), v)
  {
    assert ContrastFactor(0.0) == 1.0;
  }

  lemma ContrastFactorPositive(c: real)
    requires -255.0 < c < 259.0
    ensures ContrastFactor(c) > 0.0
  {
    var x, y := 259.0 * (c + 255.0), 255.0 * (259.0 - c);
    assert x > 0.0 && y > 0.0;
    var q := x / y;
    assert q * y == x;
    assert q > 0.0 by {
      if q <= 0.0 {
        MulMonotone(y, q, 0.0);
        assert false;
      }
    }
  }

  lemma MulMonotone(f: real, a: real, b: real)
    requires f >= 0.0 && a <= b
    ensures f * a <= f * b
  {
    assert f * b - f * a == f * (b - a);
  }

  lemma StretchMonotone(c: real, a: real, b: real)
    requires -255.0 < c < 259.0 && a <= b
    ensures Stretch(c, a) <= Stretch(c, b)
  {
    if c != NeutralContrast {
      ContrastFactorPositive(c);
      MulMonotone(ContrastFactor(c), a - 128.0, b - 128.0);
    }
  }

  lemma TonedMonotone(p: Adjustments, na: real, nb: real)
    requires 0.0 <= p.midtones <= 50.0 && p.highlights >= 0.0
    requires 0.0 <= na <= nb
    ensures Toned(p, na) <= Toned(p, nb)
  {
    var m, h := p.midtones / 50.0, p.highlights / 50.0;
    if nb < 0.5 {
      MulMonotone(m, na, nb);
    } else if na >= 0.5 {
      MulMonotone(h, na - 0.5, nb - 0.5);
    } else {
      MulMonotone(na, m, 1.0);
      MulMonotone(h, 0.0, nb - 0.5);
    }
  }

  /** The curve is monotone when midtones lie in [0, 50] and highlights are non-negative
      (and the contrast factor is positive): the lower half then ends below 0.5, where the
      upper half starts. */
  lemma CurveMonotone(p: Adjustments, a: real, b: real)
    requires -255.0 < p.contrast < 259.0 && 0.0 <= p.midtones <= 50.0 && p.highlights >= 0.0
    requires a <= b
    ensures Curve(p, a) <= Curve(p, b)
  {
    var bias := 128.0 - p.threshold;
    StretchMonotone(p.contrast, a + bias, b + bias);
    var na := Clamp(Stretch(p.contrast, a + bias), 0.0, 255.0) / 255.0;
    var nb := Clamp(Stretch(p.contrast, b + bias), 0.0, 255.0) / 255.0;
    TonedMonotone(p, na, nb);
  }

  /** Under the same conditions the table is non-decreasing without inversion and
      non-increasing with it. */
  lemma LutMonotone(p: Adjustments, i: int, j: int)
    requires -255.0 < p.contrast < 259.0 && 0.0 <= p.midtones <= 50.0 && p.highlights >= 0.0
    requires i <= j
    ensures !p.invert ==> LutEntry(p, i) <= LutEntry(p, j)
    ensures p.invert ==> LutEntry(p, i) >= LutEntry(p, j)
  {
    CurveMonotone(p, i as real, j as real);
    if p.invert {
      ToByteMonotone(Level(p, j), Level(p, i));
    } else {
      ToByteMonotone(Level(p, i), Level(p, j));
    }
  }

  /** Midtones above 50 fold the curve over at mid-grey: with midtones 100 and otherwise
      default settings, input 127 maps to 254 but input 128 maps to 128. */
  lemma HighMidtonesFold()
    ensures LutEntry(Neutral.(midtones := 100.0), 127) == 254
    ensures LutEntry(Neutral.(midtones := 100.0), 128) == 128
  {
    var p := Neutral.(midtones := 100.0);
    assert LutEntry(p, 127) == 254 by {
      assert Stretch(p.contrast, 127.0) == 127.0;
      assert Toned(p, 127.0 / 255.0) == 254.0 / 255.0;
      assert Curve(p, 127.0) == 254.0;
      ToByteIntegral(254);
    }
    assert LutEntry(p, 128) == 128 by {
      assert Stretch(p.contrast, 128.0) == 128.0;
      assert Toned(p, 128.0 / 255.0) == 128.0 / 255.0;
      assert Curve(p, 128.0) == 128.0;
      ToByteIntegral(128);
    }
  }
}
