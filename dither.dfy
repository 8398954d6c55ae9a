/** The dither dispatcher: the style name is looked up in the registry, and the category
    found picks the branch. Error diffusion and the serpentine scan run their diffusers;
    every other style thresholds each pixel against a per-pixel threshold or mask. */
module Dither {

  import opened Bytes
  import opened Registry
  import opened Grid
  import Matrices
  import Diffusion
  import Riemersma

  /** Per-pixel values the dispatcher draws from outside this model, indexed like the
      image: the blue-noise buffer, one uniform draw in [0, 1) per pixel, and the sine of
      each pixel's wave phase. */
  datatype Supplied = Supplied(noise: seq<Byte>, draws: seq<real>, sines: seq<real>)

  predicate Fits(sup: Supplied, n: int) {
    |sup.noise| == n && |sup.draws| == n && |sup.sines| == n
  }

  /** A pixel against a threshold: 255 when strictly above, else 0. */
  function Above(g: real, t: real): (b: Byte)
    ensures b == 255 <==> g > t
    ensures b == 0 <==> g <= t
  {
    if g > t then 255 else 0
  }

  /* ---------------------------- ordered ---------------------------- */

  /** The threshold matrix of a matrix style. */
  function MatrixOf(a: Algo): (m: seq<seq<int>>)
    requires a.Bayer? || a.Knoll?
    ensures |m| > 0 && forall r :: 0 <= r < |m| ==> |m[r]| == |m|
  {
    if a.Bayer? then
      Matrices.BayerMatrixIsScaledPermutation(a.size);
      Matrices.BayerMatrix(a.size)
    else
      Matrices.KnollMatrixEntries();
      Matrices.KnollMatrix()
  }

  /** The line threshold at coordinate c of a period-L band: 20 in the first half of each
      period, 230 in the second. A zero period compares against NaN, which is never less,
      so it gives 230. */
  function LineThreshold(c: int, period: int): int {
    if period != 0 && 2 * (c % period) < period then 20 else 230
  }

  /** The threshold of an ordered style at (x, y): the matrix cell of the tile position, or
      the line threshold of the row, column or diagonal; 127 otherwise. */
  function OrderedThreshold(a: Algo, x: int, y: int, lineScale: int): int {
    if a.Bayer? || a.Knoll? then
      var m := MatrixOf(a);
      m[y % |m|][x % |m|]
    else if a.HLines? then LineThreshold(y, lineScale)
    else if a.VLines? then LineThreshold(x, lineScale)
    else if a.DLines? then LineThreshold(x + y, lineScale)
    else 127
  }

  /** The ordered branch's result: pixel i, at column i % w of row i / w, against its
      threshold. */
  function OrderedMask(gray: seq<Byte>, w: int, a: Algo, lineScale: int): (r: seq<Byte>)
    requires |gray| == 0 || w > 0
    ensures |r| == |gray|
  {
    seq(|gray|, i requires 0 <= i < |gray| => Above(gray[i] as real, OrderedThreshold(a, i % w, i / w, lineScale) as real))
  }

  /** The ordered branch: one pass over the pixels in index order. */
  method OrderedDither(gray: array<Byte>, w: int, h: int, a: Algo, lineScale: int) returns (output: array<Byte>)
    requires w >= 0 && h >= 0 && gray.Length == w * h
    ensures fresh(output) && output[..] == OrderedMask(gray[..], w, a, lineScale)
  {
    output := new Byte[w * h];
    var isMatrix := a.Bayer? || a.Knoll?;
    var matrix := if isMatrix then MatrixOf(a) else [[0]];
    var size := |matrix|;
    for i := 0 to w * h
      invariant forall j :: 0 <= j < i ==> output[j] == OrderedMask(gray[..], w, a, lineScale)[j]
    {
      var x := i % w;
      var y := i / w;
      var t := 127;
      if isMatrix {
        t := matrix[y % size][x % size];
      } else if a.HLines? {
        t := if lineScale != 0 && 2 * (y % lineScale) < lineScale then 20 else 230;
      } else if a.VLines? {
        t := if lineScale != 0 && 2 * (x % lineScale) < lineScale then 20 else 230;
      } else if a.DLines? {
        t := if lineScale != 0 && 2 * ((x + y) % lineScale) < lineScale then 20 else 230;
      }
      output[i] := if gray[i] > t then 255 else 0;
    }
  }

  /* ---------------------------- organic ---------------------------- */

  /** An organic style's pixel: above the blue-noise byte, above a uniform draw scaled to
      [0, 255), or, for the stipple styles, on when the draw exceeds the gray fraction. */
  function OrganicPixel(a: Algo, g: Byte, noise: Byte, draw: real): Byte {
    if a.BlueNoise? then Above(g as real, noise as real)
    else if a.WhiteNoise? then Above(g as real, draw * 255.0)
    else Above(draw, g as real / 255.0)
  }

  function OrganicMask(gray: seq<Byte>, a: Algo, sup: Supplied): (r: seq<Byte>)
    requires Fits(sup, |gray|)
    ensures |r| == |gray|
  {
    seq(|gray|, i requires 0 <= i < |gray| => OrganicPixel(a, gray[i], sup.noise[i], sup.draws[i]))
  }

  /** The organic branch: one pass over the pixels, one supplied value each. */
  method OrganicDither(gray: array<Byte>, w: int, h: int, a: Algo, sup: Supplied) returns (output: array<Byte>)
    requires w >= 0 && h >= 0 && gray.Length == w * h && Fits(sup, gray.Length)
    ensures fresh(output) && output[..] == OrganicMask(gray[..], a, sup)
  {
    output := new Byte[w * h];
    if a.BlueNoise? {
      var noise := sup.noise;
      for i := 0 to gray.Length
        invariant forall j :: 0 <= j < i ==> output[j] == OrganicMask(gray[..], a, sup)[j]
      {
        output[i] := if gray[i] > noise[i] then 255 else 0;
      }
    } else if a.WhiteNoise? {
      for i := 0 to gray.Length
        invariant forall j :: 0 <= j < i ==> output[j] == OrganicMask(gray[..], a, sup)[j]
      {
        output[i] := if gray[i] as real > sup.draws[i] * 255.0 then 255 else 0;
      }
    } else {
      for i := 0 to gray.Length
        invariant forall j :: 0 <= j < i ==> output[j] == OrganicMask(gray[..], a, sup)[j]
      {
        output[i] := if sup.draws[i] > gray[i] as real / 255.0 then 255 else 0;
      }
    }
  }

  /* --------------------------- modulation --------------------------- */

  /** The wave period: the line scale, at least 1. */
  function Period(lineScale: int): (p: int)
    ensures p >= 1
  {
    if lineScale < 1 then 1 else lineScale
  }

  /** A waveform's threshold at column x, given the sine of the pixel's phase: the sine
      wave 127.5 + 127.5 * sine on every axis, or along x the square wave, 0 on even and 255
      on odd bands of width Period(lineScale). */
  function WaveThreshold(a: Algo, x: int, lineScale: int, sine: real): real
    requires a.Waveform?
  {
    if a.axis == AxisX && a.wave == Square then ((x / Period(lineScale)) % 2 * 255) as real
    else 127.5 + 127.5 * sine
  }

  function WaveMask(gray: seq<Byte>, w: int, a: Algo, lineScale: int, sines: seq<real>): (r: seq<Byte>)
    requires a.Waveform? && |sines| == |gray| && (|gray| == 0 || w > 0)
    ensures |r| == |gray|
  {
    seq(|gray|, i requires 0 <= i < |gray| => Above(gray[i] as real, WaveThreshold(a, i % w, lineScale, sines[i])))
  }

  /** The waveform branch: rows top to bottom, each left to right. */
  method WaveDither(gray: array<Byte>, w: int, h: int, a: Algo, lineScale: int, sines: seq<real>) returns (output: array<Byte>)
    requires w >= 0 && h >= 0 && gray.Length == w * h && a.Waveform? && |sines| == gray.Length
    ensures fresh(output) && output[..] == WaveMask(gray[..], w, a, lineScale, sines)
  {
    output := new Byte[w * h];
    for y := 0 to h
      invariant forall j :: 0 <= j < y * w ==> output[j] == WaveMask(gray[..], w, a, lineScale, sines)[j]
    {
      WaveRow(gray, output, w, h, y, a, lineScale, sines);
    }
  }

  /** Row y of the waveform branch, left to right. */
  method WaveRow(gray: array<Byte>, output: array<Byte>, w: int, h: int, y: int, a: Algo, lineScale: int, sines: seq<real>)
    requires gray != output && 0 <= y < h && gray.Length == output.Length == w * h && a.Waveform? && |sines| == gray.Length
    requires forall j :: 0 <= j < y * w ==> output[j] == WaveMask(gray[..], w, a, lineScale, sines)[j]
    modifies output
    ensures forall j :: 0 <= j < (y + 1) * w ==> output[j] == WaveMask(gray[..], w, a, lineScale, sines)[j]
  {
    ghost var base := y * w;
    assert 0 <= base && base + w <= output.Length by {
      if w > 0 {
        RowMajor(0, y, w, h);
        RowMajor(w - 1, y, w, h);
      }
    }
    for x := 0 to w
      invariant forall j :: 0 <= j < base + x ==> output[j] == WaveMask(gray[..], w, a, lineScale, sines)[j]
    {
      var t := 127.0;
      var val := if lineScale < 1 then 1 else lineScale;
      WaveMaskAt(gray[..], w, h, a, lineScale, sines, x, y);
      var idx := y * w + x;
      if a.axis == AxisX {
        t := if a.wave == Sine then 127.5 + 127.5 * sines[idx] else ((x / val) % 2 * 255) as real;
      } else {
        t := 127.5 + 127.5 * sines[idx];
      }
      assert val == Period(lineScale);
      assert t == WaveThreshold(a, x, lineScale, sines[idx]);
      output[idx] := if gray[idx] as real > t then 255 else 0;
    }
    assert base + w == (y + 1) * w;
  }

  /** Pixel (x, y) of the waveform result sits at index y * w + x. */
  lemma WaveMaskAt(gray: seq<Byte>, w: int, h: int, a: Algo, lineScale: int, sines: seq<real>, x: int, y: int)
    requires a.Waveform? && |sines| == |gray| == w * h && 0 <= x < w && 0 <= y < h
    ensures 0 <= y * w + x < |gray|
    ensures WaveMask(gray, w, a, lineScale, sines)[y * w + x]
      == Above(gray[y * w + x] as real, WaveThreshold(a, x, lineScale, sines[y * w + x]))
  {
    RowMajor(x, y, w, h);
  }

  /* ---------------------------- pattern ---------------------------- */

  /** Whether a pattern style's mask is set at (x, y): the checkerboard parity, the grid
      lines every lineScale pixels, the supplied coin, or gray above x*y mod 255. */
  function PatternOn(a: Algo, g: Byte, x: int, y: int, lineScale: int, draw: real): bool {
    if a.Checker? then (x + y) % 2 == 0
    else if a.GridLines? then lineScale != 0 && (x % lineScale == 0 || y % lineScale == 0)
    else if a.RandomDots? then draw > 0.5
    else if a.Gradient? then g > (x * y) % 255
    else true
  }

  /** A pattern pixel: against 127 where the mask is set, against 200 elsewhere. */
  function PatternPixel(a: Algo, g: Byte, x: int, y: int, lineScale: int, draw: real): Byte {
    if PatternOn(a, g, x, y, lineScale, draw) then Above(g as real, 127.0) else Above(g as real, 200.0)
  }

  function PatternMask(gray: seq<Byte>, w: int, a: Algo, lineScale: int, draws: seq<real>): (r: seq<Byte>)
    requires |draws| == |gray| && (|gray| == 0 || w > 0)
    ensures |r| == |gray|
  {
    seq(|gray|, i requires 0 <= i < |gray| => PatternPixel(a, gray[i], i % w, i / w, lineScale, draws[i]))
  }

  /** The pattern branch: one pass over the pixels in index order. */
  method PatternDither(gray: array<Byte>, w: int, h: int, a: Algo, lineScale: int, draws: seq<real>) returns (output: array<Byte>)
    requires w >= 0 && h >= 0 && gray.Length == w * h && |draws| == gray.Length
    ensures fresh(output) && output[..] == PatternMask(gray[..], w, a, lineScale, draws)
  {
    output := new Byte[w * h];
    for i := 0 to w * h
      invariant forall j :: 0 <= j < i ==> output[j] == PatternMask(gray[..], w, a, lineScale, draws)[j]
    {
      var x := i % w;
      var y := i / w;
      var k := true;
      if a.Checker? {
        k := (x + y) % 2 == 0;
      } else if a.GridLines? {
        k := lineScale != 0 && (x % lineScale == 0 || y % lineScale == 0);
      } else if a.RandomDots? {
        k := draws[i] > 0.5;
      } else if a.Gradient? {
        k := gray[i] > (x * y) % 255;
      }
      output[i] := if k then (if gray[i] > 127 then 255 else 0) else if gray[i] > 200 then 255 else 0;
    }
  }

  /* --------------------------- dispatcher --------------------------- */

  /** The dispatcher's result for a registry entry. */
  function Dithered(e: Entry, gray: seq<Byte>, w: int, h: int, lineScale: int, bleed: real, sup: Supplied): (r: seq<Byte>)
    requires Consistent(e) && w >= 0 && h >= 0 && |gray| == w * h && Fits(sup, |gray|)
    ensures |r| == |gray|
  {
    AreaIs(w, h);
    match e.category
    case ErrorDiffusion =>
      if e.algo.Variable? then Diffusion.Stored(Diffusion.Diffused(Diffusion.Ostromoukhov, Diffusion.ToReals(gray), w, h))
      else Diffusion.Stored(Diffusion.Diffused(Diffusion.Fixed(e.algo.kernel, 0.5 + bleed / 100.0), Diffusion.ToReals(gray), w, h))
    case Ordered => OrderedMask(gray, w, e.algo, lineScale)
    case Organic => OrganicMask(gray, e.algo, sup)
    case Modulation =>
      if e.algo.Serpentine? then Riemersma.Serpent(gray, w, h, Riemersma.Damping(lineScale as real), h, 0).out
      else WaveMask(gray, w, e.algo, lineScale, sup.sines)
    case Pattern => PatternMask(gray, w, e.algo, lineScale, sup.draws)
  }

  /** Dithers a w-by-h gray image in the named style. A name no category holds returns the
      input buffer itself; a known name returns a fresh buffer holding its branch's result. */
  method ApplyDither(gray: array<Byte>, w: int, h: int, style: string, lineScale: int, bleed: real, sup: Supplied)
    returns (output: array<Byte>)
    requires w >= 0 && h >= 0 && gray.Length == w * h && Fits(sup, gray.Length)
    ensures Lookup(style).None? ==> output == gray
    ensures Lookup(style).Some? ==> (LookupConsistent(style);
      fresh(output) && output[..] == Dithered(Lookup(style).value, gray[..], w, h, lineScale, bleed, sup))
  {
    LookupConsistent(style);
    var found := Lookup(style);
    if found.None? {
      return gray;
    }
    var e := found.value;
    match e.category
    case ErrorDiffusion =>
      if e.algo.Variable? {
        output := Diffusion.ApplyOstromoukhov(gray, w, h);
      } else {
        output := Diffusion.DiffuseFixed(gray, w, h, e.algo.kernel, bleed);
      }
    case Ordered =>
      output := OrderedDither(gray, w, h, e.algo, lineScale);
    case Organic =>
      output := OrganicDither(gray, w, h, e.algo, sup);
    case Modulation =>
      if e.algo.Serpentine? {
        output := Riemersma.ApplyRiemersma(gray, w, h, lineScale as real);
      } else {
        output := WaveDither(gray, w, h, e.algo, lineScale, sup.sines);
      }
    case Pattern =>
      output := PatternDither(gray, w, h, e.algo, lineScale, sup.draws);
  }

  /* ---------------------------- properties ---------------------------- */

  /** Every style of the registry yields a pure two-level mask: each byte is 0 or 255. */
  lemma DitheredBinary(e: Entry, gray: seq<Byte>, w: int, h: int, lineScale: int, bleed: real, sup: Supplied)
    requires Consistent(e) && w >= 0 && h >= 0 && |gray| == w * h && Fits(sup, |gray|)
    ensures forall i :: 0 <= i < |gray| ==>
      Dithered(e, gray, w, h, lineScale, bleed, sup)[i] == 0 || Dithered(e, gray, w, h, lineScale, bleed, sup)[i] == 255
  {
    AreaIs(w, h);
    var s0 := Diffusion.ToReals(gray);
    if e.category == ErrorDiffusion {
      var d := if e.algo.Variable? then Diffusion.Ostromoukhov else Diffusion.Fixed(e.algo.kernel, 0.5 + bleed / 100.0);
      Diffusion.DiffusedBinary(d, s0, w, h);
      Diffusion.StoredBinary(Diffusion.Diffused(d, s0, w, h));
    } else if e.category == Modulation && e.algo.Serpentine? {
      Riemersma.SerpentBinary(gray, w, h, Riemersma.Damping(lineScale as real));
    }
  }

  /** A Bayer threshold is the permutation index of its tile cell times 256/(n*n); so it
      lies between 0 and 256 - 256/(n*n). */
  lemma BayerThresholdRange(size: int, x: int, y: int, lineScale: int)
    requires size in {2, 4, 8, 16}
    ensures 0 <= OrderedThreshold(Bayer(size), x, y, lineScale) <= 256 - 256 / (size * size)
  {
    var k, j := y % size, x % size;
    var c := IndexAt(size, k, j);
    var t := OrderedThreshold(Bayer(size), x, y, lineScale);
    if size == 2 {
      assert t == 64 * c;
    } else if size == 4 {
      assert t == 16 * c;
    } else if size == 8 {
      assert t == 4 * c;
    } else {
      assert t == c;
    }
  }

  /** Cell (k, j) of the Bayer index table of the given size, within 0 .. size*size-1, and
      the matrix cell it scales to. */
  function IndexAt(size: int, k: int, j: int): (c: int)
    requires size in {2, 4, 8, 16} && 0 <= k < size && 0 <= j < size
    ensures 0 <= c < size * size
    ensures Matrices.BayerMatrix(size)[k][j] == 256 / (size * size) * c
  {
    Matrices.BayerMatrixIsScaledPermutation(size);
    Matrices.BayerIndex(size)[k][j]
  }

  /** Black stays black under every Bayer matrix; white stays white under the 2, 4 and 8
      matrices, whose largest threshold is below 255. */
  lemma BayerExtremes(size: int, x: int, y: int, lineScale: int)
    requires size in {2, 4, 8, 16}
    ensures Above(0.0, OrderedThreshold(Bayer(size), x, y, lineScale) as real) == 0
    ensures size != 16 ==> Above(255.0, OrderedThreshold(Bayer(size), x, y, lineScale) as real) == 255
  {
    BayerThresholdRange(size, x, y, lineScale);
  }

  /** The 16x16 matrix reaches 255 at column 0 of row 15 of each tile, so pure white shows
      one black pixel per 256 there. */
  lemma Bayer16WhiteGap(x: int, y: int, lineScale: int)
    requires x % 16 == 0 && y % 16 == 15
    ensures OrderedThreshold(Bayer(16), x, y, lineScale) == 255
    ensures Above(255.0, OrderedThreshold(Bayer(16), x, y, lineScale) as real) == 0
  {
    assert Matrices.Bayer16At(15, 0) == 255;
  }

  /** The clustered matrix holds 256 at column 3 of row 0 of each tile, above every byte:
      that pixel is never on, whatever the gray level. */
  lemma KnollNeverOn(g: Byte, x: int, y: int, lineScale: int)
    requires x % 4 == 3 && y % 4 == 0
    ensures Above(g as real, OrderedThreshold(Knoll, x, y, lineScale) as real) == 0
  {
    Matrices.KnollMatrixEntries();
  }

  /** Matrix thresholds tile the plane with the matrix's own period. */
  lemma MatrixPeriodic(a: Algo, x: int, y: int, lineScale: int)
    requires a.Bayer? || a.Knoll?
    ensures var n := |MatrixOf(a)|;
      && OrderedThreshold(a, x + n, y, lineScale) == OrderedThreshold(a, x, y, lineScale)
      && OrderedThreshold(a, x, y + n, lineScale) == OrderedThreshold(a, x, y, lineScale)
  {
    var n := |MatrixOf(a)|;
    ShiftMod(x, n);
    ShiftMod(y, n);
  }

  lemma ShiftMod(c: int, n: int)
    requires n > 0
    ensures (c + n) % n == c % n
  {
    DivModUnique(c + n, n, c / n + 1, c % n);
  }

  /** Line thresholds repeat with the line scale; a line scale of zero or less draws no
      lines: every threshold is then 230. */
  lemma LineBands(c: int, period: int)
    requires c >= 0
    ensures period > 0 ==> LineThreshold(c + period, period) == LineThreshold(c, period)
    ensures period <= 0 ==> LineThreshold(c, period) == 230
  {
    if period > 0 {
      ShiftMod(c, period);
    }
  }

  /** A pattern mask only decides in the band 128..200: below it every pixel is off, above
      it every pixel is on. */
  lemma PatternBand(a: Algo, g: Byte, x: int, y: int, lineScale: int, draw: real)
    ensures Above(g as real, 200.0) <= PatternPixel(a, g, x, y, lineScale, draw) <= Above(g as real, 127.0)
  {
  }

  /** Brighter input never gives a darker pattern pixel, the gradient mask included: a
      brighter pixel can only switch its mask on, lowering its threshold. */
  lemma PatternMonotone(a: Algo, g1: Byte, g2: Byte, x: int, y: int, lineScale: int, draw: real)
    requires g1 <= g2
    ensures PatternPixel(a, g1, x, y, lineScale, draw) <= PatternPixel(a, g2, x, y, lineScale, draw)
  {
  }

  /** Brighter input never gives a darker ordered or waveform pixel; the stippling styles
      run the other way: the brighter the input, the fewer pixels on. */
  lemma ThresholdMonotone(a: Algo, g1: Byte, g2: Byte, t: real, noise: Byte, draw: real)
    requires g1 <= g2
    ensures Above(g1 as real, t) <= Above(g2 as real, t)
    ensures a.BlueNoise? || a.WhiteNoise? ==> OrganicPixel(a, g1, noise, draw) <= OrganicPixel(a, g2, noise, draw)
    ensures a.Voronoi? || a.Stipple? ==> OrganicPixel(a, g1, noise, draw) >= OrganicPixel(a, g2, noise, draw)
  {
  }

  /** The square wave thresholds odd bands at 255, so they are always black, and even bands
      at 0, so there any gray above 0 is white. */
  lemma SquareWaveBands(g: Byte, x: int, lineScale: int, sine: real)
    requires x >= 0
    ensures var t := WaveThreshold(Waveform(AxisX, Square), x, lineScale, sine);
      && ((x / Period(lineScale)) % 2 == 1 ==> Above(g as real, t) == 0)
      && ((x / Period(lineScale)) % 2 == 0 ==> (Above(g as real, t) == 255 <==> g > 0))
  {
  }

  /** A sine threshold lies in [0, 255], so black input stays black on every sine style. */
  lemma SineThresholdRange(a: Algo, x: int, lineScale: int, sine: real)
    requires a.Waveform? && !(a.axis == AxisX && a.wave == Square) && -1.0 <= sine <= 1.0
    ensures 0.0 <= WaveThreshold(a, x, lineScale, sine) <= 255.0
    ensures Above(0.0, WaveThreshold(a, x, lineScale, sine)) == 0
  {
  }
}
