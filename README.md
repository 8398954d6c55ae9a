# Dither pipeline model

This project models one frame of the image ditherer in `src/App.jsx`. An RGBA source image
goes through six steps, and each step fills a freshly allocated buffer:

1. It is sampled down to a working grid of luminance bytes.
2. The bytes are tone-mapped through a 256-entry lookup table.
3. The result is dithered into a two-level mask, in the style named by the settings.
4. A depth shadow may be cast to the left.
5. The mask is mapped through a palette ramp into RGB triples.
6. The triples are sampled back up to an RGBA image of the source size.

The model has one Dafny module per concern, one file each:

- `Bytes`: the clamped-byte store rule.
- `Grid`: row-major indexing.
- `Registry`: the constant table of styles and error-diffusion kernels.
- `Matrices`: the Bayer and clustered-dot threshold matrices.
- `Colors`: the `#rrggbb` parser.
- `Tone`: the tone lookup table.
- `Diffusion`: the fixed-kernel and variable-coefficient error diffusers.
- `Riemersma`: the serpentine single-error diffuser.
- `Dither`: the dispatcher and its threshold branches.
- `Depth`: the depth shadow.
- `Palette`: the palette ramp.
- `Pipeline`: the frame as a whole.

How the source's types are represented:

- Loops that fill typed arrays are methods over `array<Byte>`, where `Byte` is 0..255.
- The `Float32Array` diffusion accumulators are `array<real>`.
- Each method is proved equal to a specification function on sequences, and the properties are proved about those functions.
- A store into a `Uint8ClampedArray` is `Bytes.ToByte`: clamp to [0, 255], then round half to even.

Where the code and its stated design disagree, the model follows the code:

- **Partial alpha.** The output is not always opaque.
  - A row whose working row `floor(y/s)` lies past the working grid is never written, so it stays transparent black (alpha 0).
  - A column past the working grid reads the start of the next working row, because only the flat index is checked against the buffer length.
- **Scale.** The scale is any number at least 1 (`Math.max(1, scale)`), not only an integer.
- **Unknown style.** A style name that is neither a registry key nor an inherited object property returns the input buffer unchanged. It is not an error.
- **Vertical waves.** The waveform along the Y axis is always a sine wave. Only the X axis honours the square wave.
- **One-colour palette.** It ramps from that colour to black, not to a constant colour.
- **Tone curve.** It is not monotone for every setting. Midtones above 50 fold it over at mid-grey.

## Model

| member | source | states |
|---|---|---|
| Bytes.ToByte | src/App.jsx:236 | a store into a clamped byte array gives 0 at or below 0, 255 at or above 255, and within half a unit of the value in between |
| Bytes.ToByteIntegral | src/App.jsx:239 | a whole number in 0..255 is stored unchanged |
| Bytes.ToByteMonotone | src/App.jsx:236 | storing never reverses the order of two values |
| Bytes.ToByteBetween | src/App.jsx:424-426 | a value lying between two bytes is stored as a byte between them |
| Registry.FindFrom | src/App.jsx:247-253 | a name is found in a category table exactly when some key equals it, and the algorithm returned is that key's |
| Registry.LookupFrom | src/App.jsx:247-254 | the dispatcher's search finds a name exactly when some category holds it, and returns the entry of a category that holds it |
| Registry.KernelsWellFormed | src/App.jsx:18-58 | every fixed kernel has a positive divisor and non-negative weights, and every tap points strictly forward in raster order (a later row, or later in the same row) |
| Registry.KernelWeightSums | src/App.jsx:18-58 | each kernel's weights sum to its divisor, except Atkinson's, which sum to 6 of 8 |
| Registry.DiffusionEntries | src/App.jsx:17-60 | every name resolving to a fixed kernel lies in the error-diffusion category and uses one of the eight registry kernels |
| Registry.TablesConsistent | src/App.jsx:16-90 | every entry of every category table has the shape its category's branch expects |
| Registry.LookupConsistent | src/App.jsx:247-254 | every name the registry resolves gives an entry its category's branch can run |
| Registry.KnownNames | src/App.jsx:18 | "Floyd-Steinberg" resolves to the error-diffusion entry with its 16-divisor kernel, and an unlisted name resolves to nothing |
| Matrices.Doubled | src/App.jsx:124-133 | the recursive Bayer step yields a square matrix twice as wide |
| Matrices.DoubledIsPermutation | src/App.jsx:124-133 | doubling a permutation of 0..n²-1 gives a permutation of 0..4n²-1 |
| Matrices.CheckInverseSound | src/App.jsx:103-122 | a square table whose inverse table passes the position check holds each value of its range exactly once |
| Matrices.RowsDoubledSound | src/App.jsx:104-122 | a square table that passes the row-by-row check is the doubled smaller table |
| Matrices.Bayer4IsDoubled2 | src/App.jsx:104-110 | the tabulated 4x4 index matrix is the recursive doubling of the 2x2 one |
| Matrices.Bayer8IsDoubled4 | src/App.jsx:111-121 | the tabulated 8x8 index matrix is the recursive doubling of the 4x4 one |
| Matrices.Bayer2IsPermutation | src/App.jsx:103 | the 2x2 index table holds 0..3 once each |
| Matrices.KnollIsPermutation | src/App.jsx:137-143 | the clustered-dot table holds 1..16 once each |
| Matrices.BayerMatrixIsScaledPermutation | src/App.jsx:102-134 | sizes 2, 4, 8 and 16 give a permutation of 0..n²-1 scaled by 256/n², and any other size gives [[0]] |
| Matrices.Bayer2Literal | src/App.jsx:103 | the 2x2 matrix is [[0, 128], [192, 64]] |
| Matrices.KnollMatrixEntries | src/App.jsx:137-143 | the clustered matrix holds 16, 32, ..., 256 once each, with 256 at row 0, column 3 |
| Matrices.Bayer16At | src/App.jsx:129 | each 16x16 cell is the 8x8 index cell at (y mod 8, x mod 8) times 4, plus the quadrant offset 0, 2, 3 or 1 |
| Matrices.FillBayer16 | src/App.jsx:124-133 | the fill loop writes, in all 256 cells, the integer permutation of 0..255 built from the 8x8 matrix and the quadrant offsets |
| Matrices.QuadrantOffset | src/App.jsx:129 | the fractional term m8[y/8][x/8]/64 is the 2x2 index of the quadrant |
| Colors.HexDigit | src/App.jsx:156 | a digit's value is below 16 |
| Colors.HexCharIff | src/App.jsx:156 | a character is in the class [a-f0-9], either case, exactly when it has a hexadecimal value |
| Colors.ParseAcceptsExactlyMatches | src/App.jsx:155-160 | the parser yields a colour exactly for strings that are an optional '#' followed by six hexadecimal digits |
| Colors.NonMatchIsBlack | src/App.jsx:159 | every other string yields black |
| Colors.FormatThenParse | src/App.jsx:155-160 | any colour written as six hexadecimal digits, with or without '#', in either case, parses back to itself |
| Tone.BuildLut | src/App.jsx:221-237 | the table loop stores, at every index 0..255, the biased, stretched, clamped, toned and optionally inverted level of that index |
| Tone.ApplyAdjustments | src/App.jsx:219-241 | a fresh buffer of the same length, each sample replaced by its table entry |
| Tone.NeutralIsIdentity | src/App.jsx:222-237 | the default settings (contrast 45, midtones 50, highlights 50, threshold 128, no inversion) leave every level unchanged |
| Tone.ZeroContrastIsNeutral | src/App.jsx:222-227 | contrast 0 has factor exactly 1, so it maps like the special-cased contrast 45 |
| Tone.ContrastFactorPositive | src/App.jsx:222 | the contrast factor is positive for contrast in (-255, 259) |
| Tone.CurveMonotone | src/App.jsx:226-233 | with midtones in [0, 50] and highlights non-negative, a brighter input level never gives a darker curve value |
| Tone.LutMonotone | src/App.jsx:225-237 | under the same conditions the table never decreases, or never increases when inverted |
| Tone.HighMidtonesFold | src/App.jsx:231-232 | with midtones 100, entry 127 is 254 but entry 128 is 128, so the table is not monotone |
| Diffusion.OstromoukhovKernelWellFormed | src/App.jsx:358-377 | every coefficient triple gives a runnable kernel whose three taps (right, down-left, down) point forward in raster order |
| Diffusion.Quantize | src/App.jsx:266 | the quantised value is always 0 or 255 |
| Diffusion.Spread | src/App.jsx:269-275 | spreading through taps keeps the buffer length |
| Diffusion.SpreadLeavesEarlier | src/App.jsx:269-275 | spreading an error through forward taps never changes the current cell or any earlier one |
| Diffusion.SpreadZero | src/App.jsx:268-275 | spreading a zero error changes nothing |
| Diffusion.StepKeepsEarlier | src/App.jsx:264-275 | visiting a cell stores its quantised value and leaves every earlier cell as it was |
| Diffusion.ScannedSettled | src/App.jsx:262-277 | once the raster scan has passed a cell, that cell holds the quantisation of the value it had when visited, and it never changes again |
| Diffusion.DiffusedBinary | src/App.jsx:262-278 | after the whole scan, every accumulator cell is exactly 0 or 255 |
| Diffusion.ConstantUnchanged | src/App.jsx:262-278 | an all-black or all-white image comes back unchanged, because every quantisation error is 0 |
| Diffusion.ConstantStored | src/App.jsx:262-278 | an all-black or all-white image comes back byte for byte from the fixed-kernel diffuser and, by the same lemma, from the variable-coefficient one |
| Diffusion.StoredBinary | src/App.jsx:278 | a two-level accumulator is stored as two-level bytes |
| Diffusion.SpreadError | src/App.jsx:269-275 | the tap loop adds each tap's share err·weight/divisor to each in-grid target, in tap order |
| Diffusion.QuantizeAt | src/App.jsx:265-267 | a cell is replaced by its quantisation, and the value it had is returned |
| Diffusion.DiffuseCell | src/App.jsx:264-275 | one visit of the fixed-kernel scan is one step of the specification scan |
| Diffusion.PushError | src/App.jsx:374-377 | pushing right, down-left and down with coefficients over their sum is the spread of the three-tap kernel |
| Diffusion.OstromoukhovCell | src/App.jsx:368-377 | one visit of the variable-coefficient scan, with coefficients chosen by the accumulated value, is one step of the specification scan |
| Diffusion.Store | src/App.jsx:278 | the final store writes every accumulator value clamped to [0, 255] as a byte, into a fresh buffer |
| Diffusion.DiffuseFixed | src/App.jsx:256-278 | fixed-kernel diffusion with the error scaled by 0.5 + bleed/100 gives the stored result of the raster scan, and every byte is 0 or 255 |
| Diffusion.ApplyOstromoukhov | src/App.jsx:356-381 | variable-coefficient diffusion gives the stored result of its raster scan, and every byte is 0 or 255 |
| Riemersma.Damping | src/App.jsx:387 | the damping is intensity/20 held to [0.1, 0.9] |
| Riemersma.Column | src/App.jsx:390-392 | the column visited at each step of a row lies inside the row |
| Riemersma.ColumnInvolutive | src/App.jsx:390-392 | the visiting order of a row is its own inverse, so it is a bijection on the columns |
| Riemersma.VisitBounded | src/App.jsx:394-397 | one visit keeps the carried error within 128·damping when it starts there |
| Riemersma.SerpentBounded | src/App.jsx:386-398 | the error carried across the scan, row ends included, stays within 128·damping in magnitude |
| Riemersma.VisitsDistinct | src/App.jsx:389-393 | two different visits write two different cells |
| Riemersma.SerpentSettled | src/App.jsx:389-399 | once a visit is done, its cell holds the threshold of the gray value plus the error carried into it, and it never changes again |
| Riemersma.SerpentBinary | src/App.jsx:383-401 | every byte of the finished scan is 0 or 255 |
| Riemersma.VisitCell | src/App.jsx:392-397 | one visit writes the threshold at the visited column and returns the damped new error |
| Riemersma.ApplyRiemersma | src/App.jsx:383-401 | the output is the finished serpentine scan, and every byte is 0 or 255 |
| Dither.Above | src/App.jsx:297 | a pixel is 255 exactly when it is strictly above its threshold, and 0 otherwise |
| Dither.MatrixOf | src/App.jsx:283-285 | a matrix style's threshold matrix is square and non-empty |
| Dither.OrderedDither | src/App.jsx:281-300 | every pixel is compared against its tiled matrix cell or its line threshold |
| Dither.OrganicDither | src/App.jsx:302-313 | every pixel is compared against its noise byte or supplied draw |
| Dither.WaveDither | src/App.jsx:315-335 | every pixel is compared against its waveform threshold, scanning row by row |
| Dither.WaveMaskAt | src/App.jsx:331-332 | pixel (x, y) of the waveform result sits at index y·w + x and is compared against that pixel's threshold |
| Dither.PatternDither | src/App.jsx:338-351 | every pixel is compared against 127 where its pattern is set, and against 200 elsewhere |
| Dither.ApplyDither | src/App.jsx:243-354 | an unknown style returns the input buffer itself; a known style returns a fresh buffer holding its category branch's result |
| Dither.DitheredBinary | src/App.jsx:256-351 | every style in the registry yields a mask of only 0 and 255 |
| Dither.IndexAt | src/App.jsx:291 | a Bayer cell is its index-table cell, a value in 0..n²-1, times 256/n² |
| Dither.BayerThresholdRange | src/App.jsx:291 | a Bayer threshold lies between 0 and 256 - 256/n² |
| Dither.BayerExtremes | src/App.jsx:291-297 | black stays black under every Bayer matrix, and white stays white under the 2, 4 and 8 matrices |
| Dither.Bayer16WhiteGap | src/App.jsx:124-133 | the 16x16 threshold reaches 255 at column 0 of row 15 of each tile, so pure white shows a black dot there |
| Dither.KnollNeverOn | src/App.jsx:291-297 | the clustered cell holding 256 is never on, whatever the input |
| Dither.MatrixPeriodic | src/App.jsx:291 | matrix thresholds repeat with the matrix's own size along both axes |
| Dither.LineBands | src/App.jsx:293-295 | line thresholds repeat with the line scale, and a line scale of 0 or less gives threshold 230 everywhere |
| Dither.PatternBand | src/App.jsx:348 | a pattern pixel is off below 128 and on above 200, whatever its pattern |
| Dither.PatternMonotone | src/App.jsx:343-348 | a brighter input never gives a darker pattern pixel, the gradient mask included |
| Dither.ThresholdMonotone | src/App.jsx:297-310 | a brighter input never gives a darker threshold pixel or noise pixel, and never a brighter stipple pixel |
| Dither.SquareWaveBands | src/App.jsx:324 | the square wave blacks out odd bands of width max(1, lineScale) and passes every non-black pixel of even bands |
| Dither.SineThresholdRange | src/App.jsx:324-329 | a sine threshold lies in [0, 255], so black input stays black |
| Depth.Shadowed | src/App.jsx:403-413 | the shadowed mask has the length of its input |
| Depth.ShadowedAt | src/App.jsx:407-410 | pixel (x, y) is 0 when the input is 0 offset columns to its right in the same row, and otherwise keeps its input value |
| Depth.ShadowDarkens | src/App.jsx:409 | each pixel keeps its value or becomes 0 |
| Depth.ShadowBinary | src/App.jsx:403-413 | a two-level mask stays two-level |
| Depth.ShadowStaysInRow | src/App.jsx:408 | the last offset columns of a row cast nothing onto the next row |
| Depth.ApplyDepth | src/App.jsx:403-413 | offset 0 returns the input buffer itself; otherwise a fresh buffer holds the shadow, computed from the unmodified input |
| Depth.DepthRow | src/App.jsx:408-410 | one row of the loop brings that row to its shadowed value and leaves later rows as input |
| Palette.Stops | src/App.jsx:417 | the ramp has at least one interval |
| Palette.Ramped | src/App.jsx:416 | the colour buffer holds three bytes per gray sample |
| Palette.ApplyPalette | src/App.jsx:415-429 | triple k of the fresh output holds the ramp colour of gray sample k |
| Palette.ColorOf | src/App.jsx:419-426 | the loop body's colour is the ramp colour of the gray value |
| Palette.RampEnds | src/App.jsx:419-426 | black maps exactly to the first colour, and with two colours or more white maps exactly to the last |
| Palette.SingleColourRamp | src/App.jsx:417-423 | with one colour, white maps to black through the fallback; with none, everything maps to black |
| Palette.MixBetween | src/App.jsx:424-426 | a blended channel lies between its two endpoints |
| Palette.RampMonotone | src/App.jsx:417-426 | with a two-colour palette, a brighter gray level never moves a channel back towards the first colour: each channel runs monotonically from the first colour to the second |
| Palette.RampBetween | src/App.jsx:419-426 | every channel of a ramp colour lies between the same channel of the two stops around its position |
| Palette.BinaryMaskEnds | src/App.jsx:419-426 | a 0/255 mask maps onto the first and last colours only |
| Pipeline.Factor | src/App.jsx:180 | the sampling factor is at least 1 and at least the scale, and equals the scale when that is 1 or more |
| Pipeline.Working | src/App.jsx:181-182 | the working size is at least 1 |
| Pipeline.WorkingBounds | src/App.jsx:181-182 | the working size is at most the source size and is floor(n/s), or 1 when that is 0 |
| Pipeline.SampleInside | src/App.jsx:187-188 | every working pixel samples a source pixel inside the image |
| Pipeline.LumaGray | src/App.jsx:190-192 | with exact arithmetic the three luminance weights sum to 1, so a gray source pixel keeps its level |
| Pipeline.LumaMonotone | src/App.jsx:190-192 | more light in every channel never gives a darker sample |
| Pipeline.PixelInside | src/App.jsx:189 | the four bytes of every source pixel lie inside the RGBA buffer |
| Pipeline.Downscaled | src/App.jsx:183 | the working buffer holds one sample per working pixel |
| Pipeline.DownscaledAt | src/App.jsx:190 | sample y·sw + x is the luminance of source pixel (floor(x·s), floor(y·s)) |
| Pipeline.Downscale | src/App.jsx:183-194 | the sampling loop fills a fresh buffer with every working pixel's sample |
| Pipeline.SamplePixel | src/App.jsx:187-192 | the loop body computes working pixel (x, y)'s sample |
| Pipeline.SourceIndex | src/App.jsx:204-206 | the working pixel read for an output pixel has a non-negative index |
| Pipeline.Upscaled | src/App.jsx:201 | the output image has four bytes for each source pixel |
| Pipeline.UpscaledAt | src/App.jsx:207 | byte (y·width + x)·4 + c of the output is byte c of output pixel (x, y) |
| Pipeline.Upscale | src/App.jsx:201-215 | the upscaling loop fills a fresh zeroed image with every pixel's bytes |
| Pipeline.UpscaleCopies | src/App.jsx:204-212 | inside the working grid, an output pixel is its working pixel's colour, opaque |
| Pipeline.UpscaleWraps | src/App.jsx:204-212 | a column past the working grid shows the working pixel one row down, at that column minus the working width |
| Pipeline.UpscaleBlankBelow | src/App.jsx:205-208 | a row past the working grid stays all 0, alpha included |
| Pipeline.UpscaleAlpha | src/App.jsx:208-212 | alpha is 255 exactly when the index guard passes, otherwise 0 with the whole pixel 0 |
| Pipeline.FiveByFiveAtScaleTwo | src/App.jsx:180-215 | a 5x5 source at scale 2 has a 2x2 working grid; its output pixel (4, 0) shows working pixel (0, 1), and its row 4 is transparent black |
| Pipeline.Adjusted | src/App.jsx:196 | the tone step keeps the buffer length |
| Pipeline.DitherStep | src/App.jsx:197 | the dither step keeps the buffer length |
| Pipeline.DepthStep | src/App.jsx:198 | the depth step keeps the buffer length |
| Pipeline.Mask | src/App.jsx:196-198 | the frame's mask has one byte per working pixel |
| Pipeline.Processed | src/App.jsx:164-217 | the rendered frame has the size of the source image |
| Pipeline.ProcessImage | src/App.jsx:164-217 | one frame, a fresh image equal to the source sampled down, tone-mapped, dithered, shadowed, ramped and sampled back up |
| Pipeline.ProcessedPixel | src/App.jsx:199-212 | a written pixel of the frame is opaque and shows the palette colour of the mask sample it reads; an unwritten pixel is all 0 |
| Pipeline.MaskBinary | src/App.jsx:196-198 | with a known style, the frame's mask holds only 0 and 255 |
| Pipeline.TwoColourFrame | src/App.jsx:164-217 | with a known style and at least two colours, every output pixel is transparent black, or opaque in the first or the last palette colour |

## Left out

- **Browser code.** The React component, the animation loop, canvas reads and writes, CSS blur, recording and export are browser I/O and are not modelled. So is `computeRenderSize`, which fits against DOM sizes. The frame arrives as a byte buffer.
- **Blue noise.** The blue-noise hash, `generateBlueNoise` (src/App.jsx:145-153), depends on the floating-point values of `Math.sin`. Its bytes are supplied per pixel as an input.
- **Sine and radial waves.** The sine value of each pixel's phase in the X-axis, Y-axis and radial sine waveforms is supplied as an input, because it depends on `Math.sin` and `Math.sqrt`. The square wave is modelled exactly.
- Dither.WaveDither: the supplied sines are one value per pixel, so the model does not capture that the X-axis sine depends only on the column and the Y-axis sine only on the row.
- **`Math.random`.** The white-noise, stipple and random-dot styles draw from `Math.random`, which is nondeterministic. The draws are supplied per pixel as an input.
- **Floating point.** Reals stand in for JS doubles and for the `Float32Array` accumulators. Rounding of the luminance sum, the contrast factor and float32 accumulation is not modelled. The clamped-byte store, with half-to-even rounding, is modelled exactly.
- Tone.ApplyAdjustments: requires contrast other than 259, as do Tone.BuildLut and Pipeline.ProcessImage. At 259 the contrast factor is a division by zero and evaluates to Infinity. The clamp then sends every stretched level to 0 or 255 before the tone curve runs, except the entry where the biased level is exactly 128 (index equal to the threshold): there Infinity times 0 gives NaN, and the byte store turns NaN into 0. The table never holds Infinity; the model does not describe this case.
- Pipeline.LumaGray: holds for the exact-real luminance only. In the source's double arithmetic, 0.299v + 0.587v + 0.114v falls just below v for some gray levels (v = 1 gives 0.9999999999999999), so the floor stores v - 1 for those levels (1 becomes 0, 127 becomes 126).
- Tone.LutMonotone: stated only for midtones in [0, 50], non-negative highlights and contrast in (-255, 259), because it is false outside that range (see Tone.HighMidtonesFold).
- Depth.ApplyDepth: requires depth ≥ 0, because the frame only calls it when depth > 0. A negative offset is not modelled.
- **Line scale.** The line scale is an integer; fractional line scales are not modelled.
- **Parsed palette.** The palette arrives as parsed colours; `hexToRgb` is modelled on its own in `Colors`.
- **Aliasing.** The unknown-style passthrough and depth offset 0 return the caller's buffer itself, as their contracts state. The model does not follow later writes through such an alias, because the source makes none.
- **Hilbert curve.** The style is registered as Riemersma (Hilbert), but the source scans in serpentine order. The model follows the serpentine order; no Hilbert curve is modelled.
- Dither.ApplyDither, Registry.Lookup: a style name inherited from the object prototype (such as "toString" or "constructor") is found by the source's property read, and the error-diffusion branch then throws on the missing offsets; the model searches the registry's own keys only and does not model that failure. The settings only ever hold registry keys.
