/** One frame of the renderer: the RGBA source is sampled down to a working grid of
    luminance bytes, tone-mapped, dithered, optionally shadowed, mapped through the
    palette ramp, and sampled back up to an RGBA image of the source size. */
module Pipeline {

  import opened Bytes
  import opened Grid
  import opened Colors
  import opened Registry
  import Tone
  import Dither
  import Depth
  import Palette

  /** The frame settings that reach the pipeline. */
  datatype Settings = Settings(
    scale: real, style: string, palette: seq<Rgb>, lineScale: int, bleed: real,
    tone: Tone.Adjustments, depth: real)

  /* ------------------------------ sizing ------------------------------ */

  /** The sampling factor: the scale setting, at least 1. */
  function Factor(scale: real): (s: real)
    ensures s >= 1.0 && s >= scale
    ensures scale >= 1.0 ==> s == scale
  {
    if scale < 1.0 then 1.0 else scale
  }

  /** The working size along one axis of n source pixels: floor(n / s), at least 1. */
  function Working(n: int, s: real): (m: int)
    requires s >= 1.0
    ensures m >= 1
  {
    var f := (n as real / s).Floor;
    if f < 1 then 1 else f
  }

  lemma MulLeReal(a: real, b: real, f: real)
    requires a <= b && f >= 0.0
    ensures a * f <= b * f
  {
    assert b * f - a * f == (b - a) * f;
  }

  /** The working grid is never larger than the source, and it covers at least the source
      divided by the factor, rounded down. */
  lemma WorkingBounds(n: int, s: real)
    requires n >= 1 && s >= 1.0
    ensures Working(n, s) <= n
    ensures Working(n, s) as real <= n as real / s || Working(n, s) == 1
    ensures n as real / s < Working(n, s) as real + 1.0
  {
    var q := n as real / s;
    assert q * s == n as real;
    MulLeReal(1.0, s, q);
    assert q <= n as real by {
      if q >= 0.0 {
        MulLeReal(1.0, s, q);
      }
    }
  }

  /** Working column x samples source column floor(x * s), which lies inside the source. */
  lemma SampleInside(n: int, s: real, x: int)
    requires n >= 1 && s >= 1.0 && 0 <= x < Working(n, s)
    ensures 0 <= (x as real * s).Floor < n
  {
    MulLeReal(0.0, x as real, s);
    var q := n as real / s;
    assert q * s == n as real;
    if Working(n, s) > 1 {
      assert x as real + 1.0 <= q;
      MulLeReal(x as real + 1.0, q, s);
      assert x as real * s + s <= n as real;
    }
  }

  /* ----------------------------- sampling ----------------------------- */

  /** The luminance 0.299 R + 0.587 G + 0.114 B, rounded down. */
  function Luma(r: Byte, g: Byte, b: Byte): Byte {
    (0.299 * r as real + 0.587 * g as real + 0.114 * b as real).Floor
  }

  /** A gray pixel keeps its level: the three weights sum to exactly 1. */
  lemma LumaGray(v: Byte)
    ensures Luma(v, v, v) == v
  {
    assert 0.299 * v as real + 0.587 * v as real + 0.114 * v as real == v as real;
  }

  /** More light in every channel never gives a darker sample. */
  lemma LumaMonotone(r1: Byte, g1: Byte, b1: Byte, r2: Byte, g2: Byte, b2: Byte)
    requires r1 <= r2 && g1 <= g2 && b1 <= b2
    ensures Luma(r1, g1, b1) <= Luma(r2, g2, b2)
  {
  }

  /** Whether an RGBA buffer holds a width-by-height image. */
  predicate IsImage(data: seq<Byte>, width: int, height: int) {
    width >= 1 && height >= 1 && |data| == 4 * (width * height)
  }

  /** The byte offset of source pixel (x, y): four bytes per pixel, row-major. */
  lemma PixelInside(data: seq<Byte>, width: int, height: int, x: int, y: int)
    requires IsImage(data, width, height) && 0 <= x < width && 0 <= y < height
    ensures 0 <= (y * width + x) * 4 && (y * width + x) * 4 + 3 < |data|
  {
    RowMajor(x, y, width, height);
  }

  /** Working pixel (x, y): the luminance of source pixel (floor(x s), floor(y s)). */
  function Sample(data: seq<Byte>, width: int, height: int, s: real, x: int, y: int): Byte
    requires IsImage(data, width, height) && s >= 1.0
    requires 0 <= x < Working(width, s) && 0 <= y < Working(height, s)
  {
    var srcX := (x as real * s).Floor;
    var srcY := (y as real * s).Floor;
    SampleInside(width, s, x);
    SampleInside(height, s, y);
    PixelInside(data, width, height, srcX, srcY);
    var i := (srcY * width + srcX) * 4;
    Luma(data[i], data[i + 1], data[i + 2])
  }

  /** The working gray buffer: sample i is working pixel (i % sw, i / sw). */
  function Downscaled(data: seq<Byte>, width: int, height: int, s: real): (gray: seq<Byte>)
    requires IsImage(data, width, height) && s >= 1.0
    ensures |gray| == Working(width, s) * Working(height, s)
  {
    var sw, sh := Working(width, s), Working(height, s);
    seq(sw * sh, i requires 0 <= i < sw * sh =>
      (AreaIs(sw, sh); CellOfIndex(i, sw, sh); Sample(data, width, height, s, i % sw, i / sw)))
  }

  /** Sample y * sw + x of the working buffer is working pixel (x, y). */
  lemma DownscaledAt(data: seq<Byte>, width: int, height: int, s: real, x: int, y: int)
    requires IsImage(data, width, height) && s >= 1.0
    requires 0 <= x < Working(width, s) && 0 <= y < Working(height, s)
    ensures var sw := Working(width, s);
      0 <= y * sw + x < |Downscaled(data, width, height, s)|
      && Downscaled(data, width, height, s)[y * sw + x] == Sample(data, width, height, s, x, y)
  {
    RowMajor(x, y, Working(width, s), Working(height, s));
  }

  /** The sampling loop: a fresh working buffer filled row by row. */
  method Downscale(data: array<Byte>, width: int, height: int, s: real) returns (gray: array<Byte>)
    requires IsImage(data[..], width, height) && s >= 1.0
    ensures fresh(gray) && gray[..] == Downscaled(data[..], width, height, s)
  {
    var sw := Working(width, s);
    var sh := Working(height, s);
    gray := new Byte[sw * sh];
    ghost var want := Downscaled(data[..], width, height, s);
    for y := 0 to sh
      invariant forall i :: 0 <= i < gray.Length && i < y * sw ==> gray[i] == want[i]
    {
      SampleRow(data, gray, width, height, s, y);
    }
    assert sh * sw == gray.Length;
  }

  /** Row y of the sampling loop. */
  method SampleRow(data: array<Byte>, gray: array<Byte>, width: int, height: int, s: real, y: int)
    requires data != gray && IsImage(data[..], width, height) && s >= 1.0
    requires gray.Length == Working(width, s) * Working(height, s) && 0 <= y < Working(height, s)
    requires forall i :: 0 <= i < gray.Length && i < y * Working(width, s) ==> gray[i] == Downscaled(data[..], width, height, s)[i]
    modifies gray
    ensures forall i :: 0 <= i < gray.Length && i < (y + 1) * Working(width, s) ==> gray[i] == Downscaled(data[..], width, height, s)[i]
  {
    var sw := Working(width, s);
    ghost var base := y * sw;
    ghost var want := Downscaled(data[..], width, height, s);
    for x := 0 to sw
      invariant forall i :: 0 <= i < gray.Length && i < base + x ==> gray[i] == want[i]
    {
      DownscaledAt(data[..], width, height, s, x, y);
      var v := SamplePixel(data, width, height, s, x, y);
      gray[y * sw + x] := v;
    }
    assert base + sw == (y + 1) * sw;
  }

  /** The body of the sampling loop for working pixel (x, y). */
  method SamplePixel(data: array<Byte>, width: int, height: int, s: real, x: int, y: int) returns (v: Byte)
    requires IsImage(data[..], width, height) && s >= 1.0
    requires 0 <= x < Working(width, s) && 0 <= y < Working(height, s)
    ensures v == Sample(data[..], width, height, s, x, y)
  {
    var srcX := (x as real * s).Floor;
    var srcY := (y as real * s).Floor;
    SampleInside(width, s, x);
    SampleInside(height, s, y);
    PixelInside(data[..], width, height, srcX, srcY);
    var srcIdx := (srcY * width + srcX) * 4;
    v := Luma(data[srcIdx], data[srcIdx + 1], data[srcIdx + 2]);
  }

  /* ----------------------------- upscaling ---------------------------- */

  /** The working pixel read for output pixel (x, y), as a flat index: row floor(y / s),
      column floor(x / s). The column is not held below sw. */
  function SourceIndex(s: real, sw: int, x: int, y: int): (k: int)
    requires s >= 1.0 && sw >= 1 && x >= 0 && y >= 0
    ensures k >= 0
  {
    var fx, fy := (x as real / s).Floor, (y as real / s).Floor;
    assert fx >= 0 && fy >= 0;
    MulLe(0, fy, sw);
    fy * sw + fx
  }

  /** Byte c (0 to 3: red, green, blue, alpha) of output pixel (x, y). When the flat index
      read lies inside the colour buffer the pixel takes that colour with alpha 255;
      otherwise nothing is written and all four bytes keep their initial 0. */
  function UpByte(colored: seq<Byte>, s: real, sw: int, x: int, y: int, c: int): Byte
    requires s >= 1.0 && sw >= 1 && x >= 0 && y >= 0 && 0 <= c < 4 && |colored| % 3 == 0
  {
    var k := SourceIndex(s, sw, x, y);
    if k * 3 < |colored| then (if c < 3 then colored[k * 3 + c] else 255) else 0
  }

  /** The output image: byte j belongs to pixel j / 4, at column (j / 4) % width and row
      (j / 4) / width, channel j % 4. */
  function Upscaled(colored: seq<Byte>, width: int, height: int, s: real, sw: int): (out: seq<Byte>)
    requires width >= 1 && height >= 1 && s >= 1.0 && sw >= 1 && |colored| % 3 == 0
    ensures |out| == 4 * (width * height)
  {
    seq(4 * (width * height), j requires 0 <= j < 4 * (width * height) =>
      (AreaIs(width, height); CellOfIndex(j / 4, width, height);
       UpByte(colored, s, sw, (j / 4) % width, (j / 4) / width, j % 4)))
  }

  /** Byte (y * width + x) * 4 + c of the output is byte c of pixel (x, y). */
  lemma UpscaledAt(colored: seq<Byte>, width: int, height: int, s: real, sw: int, x: int, y: int, c: int)
    requires width >= 1 && height >= 1 && s >= 1.0 && sw >= 1 && |colored| % 3 == 0
    requires 0 <= x < width && 0 <= y < height && 0 <= c < 4
    ensures 0 <= (y * width + x) * 4 + c < 4 * (width * height)
    ensures Upscaled(colored, width, height, s, sw)[(y * width + x) * 4 + c] == UpByte(colored, s, sw, x, y, c)
  {
    RowMajor(x, y, width, height);
    var p := y * width + x;
    DivModUnique(p * 4 + c, 4, p, c);
  }

  /** The upscaling loop: a fresh, zeroed RGBA image of the source size, filled row by row. */
  method Upscale(colored: array<Byte>, width: int, height: int, s: real, sw: int) returns (output: array<Byte>)
    requires width >= 1 && height >= 1 && s >= 1.0 && sw >= 1 && colored.Length % 3 == 0
    ensures fresh(output) && output[..] == Upscaled(colored[..], width, height, s, sw)
  {
    output := new Byte[4 * (width * height)](_ => 0);
    for y := 0 to height
      invariant forall j :: 0 <= j < output.Length ==>
        output[j] == if j < (y * width) * 4 then Upscaled(colored[..], width, height, s, sw)[j] else 0
    {
      UpscaleRow(colored, output, width, height, s, sw, y);
    }
    assert (height * width) * 4 == output.Length;
  }

  /** Row y of the upscaling loop. */
  method UpscaleRow(colored: array<Byte>, output: array<Byte>, width: int, height: int, s: real, sw: int, y: int)
    requires width >= 1 && height >= 1 && s >= 1.0 && sw >= 1 && colored.Length % 3 == 0
    requires colored != output && output.Length == 4 * (width * height) && 0 <= y < height
    requires forall j :: 0 <= j < output.Length ==>
      output[j] == if j < (y * width) * 4 then Upscaled(colored[..], width, height, s, sw)[j] else 0
    modifies output
    ensures forall j :: 0 <= j < output.Length ==>
      output[j] == if j < ((y + 1) * width) * 4 then Upscaled(colored[..], width, height, s, sw)[j] else 0
  {
    ghost var want := Upscaled(colored[..], width, height, s, sw);
    ghost var base := (y * width) * 4;
    for x := 0 to width
      invariant forall j :: 0 <= j < output.Length ==>
        output[j] == if j < base + 4 * x then want[j] else 0
    {
      UpscaledAt(colored[..], width, height, s, sw, x, y, 0);
      UpscaledAt(colored[..], width, height, s, sw, x, y, 1);
      UpscaledAt(colored[..], width, height, s, sw, x, y, 2);
      UpscaledAt(colored[..], width, height, s, sw, x, y, 3);
      UpscalePixel(colored, output, s, sw, x, y, (y * width + x) * 4);
    }
    assert base + 4 * width == ((y + 1) * width) * 4;
  }

  /** Output pixel (x, y), whose four bytes start at dst and are still 0. */
  method UpscalePixel(colored: array<Byte>, output: array<Byte>, s: real, sw: int, x: int, y: int, dst: int)
    requires s >= 1.0 && sw >= 1 && x >= 0 && y >= 0 && colored.Length % 3 == 0
    requires colored != output && 0 <= dst && dst + 4 <= output.Length
    requires forall j :: dst <= j < dst + 4 ==> output[j] == 0
    modifies output
    ensures forall j :: 0 <= j < output.Length ==>
      output[j] == if dst <= j < dst + 4 then UpByte(colored[..], s, sw, x, y, j - dst) else old(output[j])
  {
    var srcX := (x as real / s).Floor;
    var srcY := (y as real / s).Floor;
    var srcIdx := (srcY * sw + srcX) * 3;
    assert srcIdx == SourceIndex(s, sw, x, y) * 3;
    if srcIdx < colored.Length {
      output[dst] := colored[srcIdx];
      output[dst + 1] := colored[srcIdx + 1];
      output[dst + 2] := colored[srcIdx + 2];
      output[dst + 3] := 255;
    }
  }

  /** Inside the working grid the output pixel is the working pixel (floor(x/s), floor(y/s))
      with alpha 255. */
  lemma UpscaleCopies(colored: seq<Byte>, s: real, sw: int, sh: int, x: int, y: int)
    requires s >= 1.0 && sw >= 1 && sh >= 1 && x >= 0 && y >= 0 && |colored| == 3 * (sw * sh)
    requires (x as real / s).Floor < sw && (y as real / s).Floor < sh
    ensures var k := (y as real / s).Floor * sw + (x as real / s).Floor;
      0 <= k < sw * sh
      && (forall c :: 0 <= c < 3 ==> UpByte(colored, s, sw, x, y, c) == colored[k * 3 + c])
      && UpByte(colored, s, sw, x, y, 3) == 255
  {
    RowMajor((x as real / s).Floor, (y as real / s).Floor, sw, sh);
  }

  /** A column past the working grid reads the next working row: the flat index runs on
      into row floor(y/s) + 1, column floor(x/s) - sw. */
  lemma UpscaleWraps(colored: seq<Byte>, s: real, sw: int, sh: int, x: int, y: int)
    requires s >= 1.0 && sw >= 1 && sh >= 1 && x >= 0 && y >= 0 && |colored| == 3 * (sw * sh)
    requires sw <= (x as real / s).Floor < 2 * sw && (y as real / s).Floor + 1 < sh
    ensures var k := ((y as real / s).Floor + 1) * sw + ((x as real / s).Floor - sw);
      0 <= k < sw * sh
      && (forall c :: 0 <= c < 3 ==> UpByte(colored, s, sw, x, y, c) == colored[k * 3 + c])
      && UpByte(colored, s, sw, x, y, 3) == 255
  {
    var fx, fy := (x as real / s).Floor, (y as real / s).Floor;
    RowMajor(fx - sw, fy + 1, sw, sh);
    assert (fy + 1) * sw == fy * sw + sw;
  }

  /** A row past the working grid is never written: all four bytes stay 0, alpha included. */
  lemma UpscaleBlankBelow(colored: seq<Byte>, s: real, sw: int, sh: int, x: int, y: int, c: int)
    requires s >= 1.0 && sw >= 1 && sh >= 1 && x >= 0 && y >= 0 && 0 <= c < 4 && |colored| == 3 * (sw * sh)
    requires (y as real / s).Floor >= sh
    ensures UpByte(colored, s, sw, x, y, c) == 0
  {
    MulLe(sh, (y as real / s).Floor, sw);
    assert sh * sw <= SourceIndex(s, sw, x, y);
  }

  /** Alpha marks the written pixels: it is 255 or 0, and a pixel with alpha 0 is all 0. */
  lemma UpscaleAlpha(colored: seq<Byte>, s: real, sw: int, x: int, y: int)
    requires s >= 1.0 && sw >= 1 && x >= 0 && y >= 0 && |colored| % 3 == 0
    ensures UpByte(colored, s, sw, x, y, 3) in {0, 255}
    ensures UpByte(colored, s, sw, x, y, 3) == 0 ==>
      forall c :: 0 <= c < 3 ==> UpByte(colored, s, sw, x, y, c) == 0
    ensures UpByte(colored, s, sw, x, y, 3) == 255 <==> SourceIndex(s, sw, x, y) * 3 < |colored|
  {
  }

  /** A 5-by-5 source at scale 2 has a 2-by-2 working grid: its output pixel (4, 0) shows
      working pixel (0, 1), and its bottom row comes out transparent black. */
  lemma FiveByFiveAtScaleTwo(colored: seq<Byte>, x: int, c: int)
    requires |colored| == 12 && 0 <= x < 5 && 0 <= c < 4
    ensures Working(5, 2.0) == 2
    ensures c < 3 ==> UpByte(colored, 2.0, 2, 4, 0, c) == colored[6 + c]
    ensures UpByte(colored, 2.0, 2, x, 4, c) == 0
  {
    assert (5 as real / 2.0).Floor == 2;
    assert (4 as real / 2.0).Floor == 2;
    UpscaleWraps(colored, 2.0, 2, 2, 4, 0);
    UpscaleBlankBelow(colored, 2.0, 2, 2, x, 4, c);
  }

  /* ------------------------------ the frame ----------------------------- */

  /** The tone-mapped buffer: every sample replaced by its table entry. */
  function Adjusted(gray: seq<Byte>, p: Tone.Adjustments): (r: seq<Byte>)
    requires p.contrast != 259.0
    ensures |r| == |gray|
  {
    seq(|gray|, i requires 0 <= i < |gray| => Tone.LutEntry(p, gray[i]))
  }

  /** The dithering step: a style the registry knows produces its mask; any other name
      passes the buffer through. */
  function DitherStep(adjusted: seq<Byte>, sw: int, sh: int, st: Settings, sup: Dither.Supplied): (r: seq<Byte>)
    requires sw >= 1 && sh >= 1 && |adjusted| == sw * sh && Dither.Fits(sup, |adjusted|)
    ensures |r| == |adjusted|
  {
    LookupConsistent(st.style);
    match Lookup(st.style)
    case None => adjusted
    case Some(e) => Dither.Dithered(e, adjusted, sw, sh, st.lineScale, st.bleed, sup)
  }

  /** The depth step: a positive depth with a non-zero whole part shadows the mask by that
      many columns; otherwise the mask is unchanged. */
  function DepthStep(mask: seq<Byte>, sw: int, depth: real): (r: seq<Byte>)
    requires sw >= 1
    ensures |r| == |mask|
  {
    if depth > 0.0 && depth.Floor != 0 then Depth.Shadowed(mask, sw, depth.Floor) else mask
  }

  /** The working mask of a frame: sampled, tone-mapped, dithered and shadowed. */
  function Mask(data: seq<Byte>, width: int, height: int, st: Settings, sup: Dither.Supplied): (r: seq<Byte>)
    requires IsImage(data, width, height) && st.tone.contrast != 259.0
    requires Dither.Fits(sup, Working(width, Factor(st.scale)) * Working(height, Factor(st.scale)))
    ensures |r| == Working(width, Factor(st.scale)) * Working(height, Factor(st.scale))
  {
    var s := Factor(st.scale);
    var sw, sh := Working(width, s), Working(height, s);
    var adjusted := Adjusted(Downscaled(data, width, height, s), st.tone);
    DepthStep(DitherStep(adjusted, sw, sh, st, sup), sw, st.depth)
  }

  /** The rendered frame: the mask mapped through the palette and sampled back up. */
  function Processed(data: seq<Byte>, width: int, height: int, st: Settings, sup: Dither.Supplied): (out: seq<Byte>)
    requires IsImage(data, width, height) && st.tone.contrast != 259.0
    requires Dither.Fits(sup, Working(width, Factor(st.scale)) * Working(height, Factor(st.scale)))
    ensures |out| == |data|
  {
    var s := Factor(st.scale);
    Upscaled(Palette.Ramped(Mask(data, width, height, st, sup), st.palette), width, height, s, Working(width, s))
  }

  /** One frame: the RGBA source in, a fresh RGBA image of the same size out. */
  method ProcessImage(data: array<Byte>, width: int, height: int, st: Settings, sup: Dither.Supplied)
    returns (output: array<Byte>)
    requires IsImage(data[..], width, height) && st.tone.contrast != 259.0
    requires Dither.Fits(sup, Working(width, Factor(st.scale)) * Working(height, Factor(st.scale)))
    ensures fresh(output) && output[..] == Processed(data[..], width, height, st, sup)
  {
    var s := Factor(st.scale);
    var scaledW := Working(width, s);
    var scaledH := Working(height, s);
    var gray := Downscale(data, width, height, s);
    var adjusted := Tone.ApplyAdjustments(gray, st.tone);
    assert adjusted[..] == Adjusted(gray[..], st.tone);
    var dithered := Dither.ApplyDither(adjusted, scaledW, scaledH, st.style, st.lineScale, st.bleed, sup);
    assert dithered[..] == DitherStep(adjusted[..], scaledW, scaledH, st, sup);
    if st.depth > 0.0 {
      dithered := Depth.ApplyDepth(dithered, scaledW, scaledH, st.depth);
    }
    assert dithered[..] == Mask(data[..], width, height, st, sup);
    var colored := Palette.ApplyPalette(dithered, st.palette);
    output := Upscale(colored, width, height, s, scaledW);
  }

  /** Upscaling a ramped mask: a written output pixel shows the palette colour of the mask
      sample it reads, and an unwritten one is all 0. */
  lemma RampedPixel(mask: seq<Byte>, colors: seq<Rgb>, s: real, sw: int, x: int, y: int)
    requires s >= 1.0 && sw >= 1 && x >= 0 && y >= 0
    ensures var colored, k := Palette.Ramped(mask, colors), SourceIndex(s, sw, x, y);
      (k < |mask| ==> (UpByte(colored, s, sw, x, y, 3) == 255
        && Rgb(UpByte(colored, s, sw, x, y, 0), UpByte(colored, s, sw, x, y, 1), UpByte(colored, s, sw, x, y, 2))
           == Palette.RampColor(colors, mask[k])))
      && (k >= |mask| ==> forall c :: 0 <= c < 4 ==> UpByte(colored, s, sw, x, y, c) == 0)
  {
    var colored := Palette.Ramped(mask, colors);
    var k := SourceIndex(s, sw, x, y);
    if k < |mask| {
      var col := Palette.RampColor(colors, mask[k]);
      forall c | 0 <= c < 3
        ensures UpByte(colored, s, sw, x, y, c) == col.Channel(c)
      {
        DivModUnique(k * 3 + c, 3, k, c);
      }
    }
  }

  /** The same, read through the output image at byte offset (y * width + x) * 4. */
  lemma UpscaledRampedPixel(mask: seq<Byte>, colors: seq<Rgb>, width: int, height: int, s: real, sw: int, x: int, y: int)
    requires width >= 1 && height >= 1 && s >= 1.0 && sw >= 1
    requires 0 <= x < width && 0 <= y < height
    ensures var out := Upscaled(Palette.Ramped(mask, colors), width, height, s, sw);
      var k, p := SourceIndex(s, sw, x, y), (y * width + x) * 4;
      0 <= p && p + 3 < |out|
      && (k < |mask| ==> (out[p + 3] == 255
            && Rgb(out[p], out[p + 1], out[p + 2]) == Palette.RampColor(colors, mask[k])))
      && (k >= |mask| ==> out[p] == out[p + 1] == out[p + 2] == out[p + 3] == 0)
  {
    var colored := Palette.Ramped(mask, colors);
    UpscaledAt(colored, width, height, s, sw, x, y, 0);
    UpscaledAt(colored, width, height, s, sw, x, y, 1);
    UpscaledAt(colored, width, height, s, sw, x, y, 2);
    UpscaledAt(colored, width, height, s, sw, x, y, 3);
    RampedPixel(mask, colors, s, sw, x, y);
  }

  /** A written pixel of the frame shows the palette colour of the mask sample it reads;
      an unwritten one is all 0. */
  lemma ProcessedPixel(data: seq<Byte>, width: int, height: int, st: Settings, sup: Dither.Supplied, x: int, y: int)
    requires IsImage(data, width, height) && st.tone.contrast != 259.0
    requires Dither.Fits(sup, Working(width, Factor(st.scale)) * Working(height, Factor(st.scale)))
    requires 0 <= x < width && 0 <= y < height
    ensures var s := Factor(st.scale);
      var out, mask := Processed(data, width, height, st, sup), Mask(data, width, height, st, sup);
      var k, p := SourceIndex(s, Working(width, s), x, y), (y * width + x) * 4;
      0 <= p && p + 3 < |out|
      && (k < |mask| ==> (out[p + 3] == 255
            && Rgb(out[p], out[p + 1], out[p + 2]) == Palette.RampColor(st.palette, mask[k])))
      && (k >= |mask| ==> out[p] == out[p + 1] == out[p + 2] == out[p + 3] == 0)
  {
    var s := Factor(st.scale);
    UpscaledRampedPixel(Mask(data, width, height, st, sup), st.palette, width, height, s, Working(width, s), x, y);
  }

  /** The working mask of a frame with a known style is two-level. */
  lemma MaskBinary(data: seq<Byte>, width: int, height: int, st: Settings, sup: Dither.Supplied, i: int)
    requires IsImage(data, width, height) && st.tone.contrast != 259.0
    requires Dither.Fits(sup, Working(width, Factor(st.scale)) * Working(height, Factor(st.scale)))
    requires Lookup(st.style).Some? && 0 <= i < |Mask(data, width, height, st, sup)|
    ensures Mask(data, width, height, st, sup)[i] == 0 || Mask(data, width, height, st, sup)[i] == 255
  {
    var s := Factor(st.scale);
    var sw, sh := Working(width, s), Working(height, s);
    var adjusted := Adjusted(Downscaled(data, width, height, s), st.tone);
    LookupConsistent(st.style);
    Dither.DitheredBinary(Lookup(st.style).value, adjusted, sw, sh, st.lineScale, st.bleed, sup);
    var dithered := DitherStep(adjusted, sw, sh, st, sup);
    if st.depth > 0.0 && st.depth.Floor != 0 {
      Depth.ShadowBinary(dithered, sw, st.depth.Floor);
    }
  }

  /** Pixel p of an RGBA image is transparent black, or opaque in the first or the last
      of the colours. */
  predicate TwoColourAt(out: seq<Byte>, p: int, colors: seq<Rgb>)
    requires 0 <= p && p + 3 < |out| && |colors| >= 1
  {
    && (out[p + 3] == 0 ==> out[p] == out[p + 1] == out[p + 2] == 0)
    && (out[p + 3] != 0 ==> (out[p + 3] == 255
          && (Rgb(out[p], out[p + 1], out[p + 2]) == colors[0]
              || Rgb(out[p], out[p + 1], out[p + 2]) == colors[|colors| - 1])))
  }

  /** Upscaling a ramped two-level mask with at least two colours: every pixel is either
      transparent black or, fully opaque, the first or the last colour. Only the mask
      sample the pixel reads needs to be two-level. */
  lemma TwoColourPixel(mask: seq<Byte>, colors: seq<Rgb>, width: int, height: int, s: real, sw: int, x: int, y: int)
    requires width >= 1 && height >= 1 && s >= 1.0 && sw >= 1 && |colors| >= 2
    requires 0 <= x < width && 0 <= y < height
    requires SourceIndex(s, sw, x, y) < |mask| ==> mask[SourceIndex(s, sw, x, y)] in {0, 255}
    ensures var out, p := Upscaled(Palette.Ramped(mask, colors), width, height, s, sw), (y * width + x) * 4;
      0 <= p && p + 3 < |out| && TwoColourAt(out, p, colors)
  {
    var k := SourceIndex(s, sw, x, y);
    UpscaledRampedPixel(mask, colors, width, height, s, sw, x, y);
    if k < |mask| {
      Palette.BinaryMaskEnds(colors, mask[k]);
    }
  }

  /** With a known style and at least two colours, every pixel of the frame is either
      transparent black or exactly the first or the last palette colour, fully opaque. */
  lemma TwoColourFrame(data: seq<Byte>, width: int, height: int, st: Settings, sup: Dither.Supplied, x: int, y: int)
    requires IsImage(data, width, height) && st.tone.contrast != 259.0
    requires Dither.Fits(sup, Working(width, Factor(st.scale)) * Working(height, Factor(st.scale)))
    requires Lookup(st.style).Some? && |st.palette| >= 2
    requires 0 <= x < width && 0 <= y < height
    ensures var out, p := Processed(data, width, height, st, sup), (y * width + x) * 4;
      0 <= p && p + 3 < |out| && TwoColourAt(out, p, st.palette)
  {
    var s := Factor(st.scale);
    var sw := Working(width, s);
    var mask := Mask(data, width, height, st, sup);
    var k := SourceIndex(s, sw, x, y);
    if k < |mask| {
      MaskBinary(data, width, height, st, sup, k);
    }
    TwoColourPixel(mask, st.palette, width, height, s, sw, x, y);
  }
}
