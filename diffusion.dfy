/** Raster error diffusion: the fixed-kernel diffuser and the variable-coefficient
    (Ostromoukhov) diffuser. The accumulator is modelled on exact reals. */
module Diffusion {

  import opened Bytes
  import opened Registry
  import opened Grid

  /** The quantiser shared by every diffuser: above 127 is on. */
  function Quantize(v: real): (q: real)
    ensures IsBinary(q)
  {
    if v > 127.0 then 255.0 else 0.0
  }

  /** A buffer of bytes as the diffusion accumulator starts out. */
  function ToReals(s: seq<Byte>): (r: seq<real>)
    ensures |r| == |s| && forall i :: 0 <= i < |s| ==> r[i] == s[i] as real
  {
    seq(|s|, i requires 0 <= i < |s| => s[i] as real)
  }

  /** The coefficient triple (forward, down-left, down) chosen by the quarter of [0, 1]
      that v/255 falls in. */
  function Coefficients(v: real): (int, int, int) {
    var n := v / 255.0;
    if n < 0.25 then (13, 0, 5)
    else if n < 0.5 then (6, 13, 0)
    else if n < 0.75 then (0, 7, 13)
    else (3, 5, 13)
  }

  /** The three-tap kernel Ostromoukhov diffusion uses for accumulated value v. */
  function OstromoukhovKernel(v: real): Kernel {
    var (c1, c2, c3) := Coefficients(v);
    Kernel(c1 + c2 + c3, [Tap(1, 0, c1), Tap(-1, 1, c2), Tap(0, 1, c3)])
  }

  /** Which diffuser runs: a registry kernel with its bleed factor, or the Ostromoukhov one. */
  datatype Diffuser = Fixed(kernel: Kernel, bleedFactor: real) | Ostromoukhov

  predicate ValidDiffuser(d: Diffuser) {
    d.Fixed? ==> WellFormed(d.kernel)
  }

  function KernelAt(d: Diffuser, v: real): Kernel {
    match d
    case Fixed(k, _) => k
    case Ostromoukhov => OstromoukhovKernel(v)
  }

  function ErrorFactor(d: Diffuser): real {
    match d
    case Fixed(_, f) => f
    case Ostromoukhov => 1.0
  }

  lemma OstromoukhovKernelWellFormed(v: real)
    ensures WellFormed(OstromoukhovKernel(v))
  {
  }

  lemma KernelAtWellFormed(d: Diffuser, v: real)
    requires ValidDiffuser(d)
    ensures WellFormed(KernelAt(d, v))
  {
    if d.Ostromoukhov? {
      OstromoukhovKernelWellFormed(v);
    }
  }

  /** One tap's share arriving at cell (nx, ny): added there when the cell is inside the
      w-by-h grid, dropped otherwise. */
  function Push(s: seq<real>, w: int, h: nat, nx: int, ny: int, share: real): (r: seq<real>)
    requires |s| == Area(w, h)
    ensures |r| == |s|
  {
    if 0 <= nx < w && 0 <= ny < h then
      CellInGrid(nx, ny, w, h);
      s[Cell(nx, ny, w) := s[Cell(nx, ny, w)] + share]
    else s
  }

  /** The part of err that tap t of k receives: err * weight / divisor. */
  function Share(err: real, t: Tap, k: Kernel): real
    requires k.divisor != 0
  {
    err * t.weight as real / k.divisor as real
  }

  /** The accumulator after the first n taps of k have received their share of err from
      cell (x, y). */
  function Spread(s: seq<real>, w: int, h: nat, x: int, y: nat, err: real, k: Kernel, n: nat): (r: seq<real>)
    requires |s| == Area(w, h) && n <= |k.taps| && k.divisor != 0
    ensures |r| == |s|
    decreases n
  {
    if n == 0 then s
    else
      var t := k.taps[n - 1];
      Push(Spread(s, w, h, x, y, err, k, n - 1), w, h, x + t.dx, y + t.dy, Share(err, t, k))
  }

  /** Visiting cell (x, y), stored at index i: store its quantised value and spread the
      scaled error. */
  function Visit(d: Diffuser, s: seq<real>, w: int, h: nat, x: int, y: nat, i: int): (r: seq<real>)
    requires ValidDiffuser(d) && |s| == Area(w, h) && 0 <= x < w && y < h && 0 <= i < |s|
    ensures |r| == |s|
  {
    var v := s[i];
    var q := Quantize(v);
    var k := KernelAt(d, v);
    KernelAtWellFormed(d, v);
    Spread(s[i := q], w, h, x, y, (v - q) * ErrorFactor(d), k, |k.taps|)
  }

  function StepAt(d: Diffuser, s: seq<real>, w: int, h: nat, x: int, y: nat): (r: seq<real>)
    requires ValidDiffuser(d) && |s| == Area(w, h) && 0 <= x < w && y < h
    ensures |r| == |s|
  {
    CellInGrid(x, y, w, h);
    Visit(d, s, w, h, x, y, Cell(x, y, w))
  }

  /** The accumulator once the raster scan (rows top to bottom, each row left to right)
      has visited every cell Before (x, y). */
  function Scanned(d: Diffuser, s0: seq<real>, w: int, h: nat, y: nat, x: int): (r: seq<real>)
    requires ValidDiffuser(d) && |s0| == Area(w, h) && 0 <= x <= w && y <= h && (x > 0 ==> y < h)
    ensures |r| == |s0|
    decreases y, x
  {
    if x > 0 then StepAt(d, Scanned(d, s0, w, h, y, x - 1), w, h, x - 1, y)
    else if y == 0 then s0
    else Scanned(d, s0, w, h, y - 1, w)
  }

  /** The accumulator after the whole scan. */
  function Diffused(d: Diffuser, s0: seq<real>, w: int, h: nat): (r: seq<real>)
    requires ValidDiffuser(d) && w >= 0 && |s0| == Area(w, h)
    ensures |r| == |s0|
  {
    Scanned(d, s0, w, h, h, 0)
  }

  /** Spreading through one more tap pushes that tap's share of err to its target. */
  lemma {:induction false} SpreadStep(s: seq<real>, w: int, h: nat, x: int, y: nat, err: real, k: Kernel, j: nat)
    requires |s| == Area(w, h) && j < |k.taps| && k.divisor != 0
    ensures var t := k.taps[j];
      Spread(s, w, h, x, y, err, k, j + 1)
        == Push(Spread(s, w, h, x, y, err, k, j), w, h, x + t.dx, y + t.dy, Share(err, t, k))
  {
  }

  /** Three pushes, one per tap of a three-tap kernel in order, make up its spread. */
  lemma SpreadThree(s0: seq<real>, s1: seq<real>, s2: seq<real>, s3: seq<real>, w: int, h: nat, x: int, y: nat, err: real, k: Kernel)
    requires |s0| == Area(w, h) && |k.taps| == 3 && k.divisor != 0
    requires s1 == Push(s0, w, h, x + k.taps[0].dx, y + k.taps[0].dy, Share(err, k.taps[0], k))
    requires s2 == Push(s1, w, h, x + k.taps[1].dx, y + k.taps[1].dy, Share(err, k.taps[1], k))
    requires s3 == Push(s2, w, h, x + k.taps[2].dx, y + k.taps[2].dy, Share(err, k.taps[2], k))
    ensures s3 == Spread(s0, w, h, x, y, err, k, 3)
  {
    SpreadStep(s0, w, h, x, y, err, k, 0);
    SpreadStep(s0, w, h, x, y, err, k, 1);
    SpreadStep(s0, w, h, x, y, err, k, 2);
  }

  /** Spreading from cell (x, y) through forward taps leaves the cell itself and every
      cell before it in raster order untouched. */
  lemma {:induction false} SpreadLeavesEarlier(s: seq<real>, w: int, h: nat, x: int, y: nat, err: real, k: Kernel, n: nat, j: int)
    requires |s| == Area(w, h) && n <= |k.taps| && k.divisor != 0 && AllForward(k.taps)
    requires 0 <= x < w && 0 <= j < |s| && j <= Cell(x, y, w)
    ensures Spread(s, w, h, x, y, err, k, n)[j] == s[j]
    decreases n
  {
    if n > 0 {
      SpreadLeavesEarlier(s, w, h, x, y, err, k, n - 1, j);
      var t := k.taps[n - 1];
      var nx, ny := x + t.dx, y + t.dy;
      if 0 <= nx < w && 0 <= ny < h {
        assert Forward(t);
        CellLater(x, y, nx, ny, w);
        CellInGrid(nx, ny, w, h);
      }
    }
  }

  /** Spreading an error of zero changes nothing. */
  lemma {:induction false} SpreadZero(s: seq<real>, w: int, h: nat, x: int, y: nat, k: Kernel, n: nat)
    requires |s| == Area(w, h) && n <= |k.taps| && k.divisor != 0
    ensures Spread(s, w, h, x, y, 0.0, k, n) == s
    decreases n
  {
    if n > 0 {
      SpreadZero(s, w, h, x, y, k, n - 1);
    }
  }

  /** What visiting cell (x, y) does, spelled out for the proofs below. */
  lemma StepAtSpreads(d: Diffuser, s: seq<real>, w: int, h: nat, x: int, y: nat, i: int)
    requires ValidDiffuser(d) && |s| == Area(w, h) && 0 <= x < w && y < h && i == Cell(x, y, w)
    ensures 0 <= i < |s| && WellFormed(KernelAt(d, s[i]))
    ensures StepAt(d, s, w, h, x, y)
         == Spread(s[i := Quantize(s[i])], w, h, x, y, (s[i] - Quantize(s[i])) * ErrorFactor(d), KernelAt(d, s[i]), |KernelAt(d, s[i]).taps|)
  {
    CellInGrid(x, y, w, h);
    VisitSpreads(d, s, w, h, x, y, i);
    assert StepAt(d, s, w, h, x, y) == Visit(d, s, w, h, x, y, i);
  }

  lemma VisitSpreads(d: Diffuser, s: seq<real>, w: int, h: nat, x: int, y: nat, i: int)
    requires ValidDiffuser(d) && |s| == Area(w, h) && 0 <= x < w && y < h && 0 <= i < |s|
    ensures WellFormed(KernelAt(d, s[i]))
    ensures Visit(d, s, w, h, x, y, i)
         == Spread(s[i := Quantize(s[i])], w, h, x, y, (s[i] - Quantize(s[i])) * ErrorFactor(d), KernelAt(d, s[i]), |KernelAt(d, s[i]).taps|)
  {
    KernelAtWellFormed(d, s[i]);
  }

  /** Visiting cell (x, y) quantises it and leaves every earlier cell as it was. */
  lemma StepKeepsEarlier(d: Diffuser, s: seq<real>, w: int, h: nat, x: int, y: nat, j: int)
    requires ValidDiffuser(d) && |s| == Area(w, h) && 0 <= x < w && y < h && 0 <= j <= Cell(x, y, w)
    ensures (CellInGrid(x, y, w, h);
      StepAt(d, s, w, h, x, y)[j] == if j == Cell(x, y, w) then Quantize(s[j]) else s[j])
  {
    var i := Cell(x, y, w);
    StepAtSpreads(d, s, w, h, x, y, i);
    var k := KernelAt(d, s[i]);
    SpreadLeavesEarlier(s[i := Quantize(s[i])], w, h, x, y, (s[i] - Quantize(s[i])) * ErrorFactor(d), k, |k.taps|, j);
  }

  /** Once the scan has passed cell (jx, jy), the cell holds the quantised value it had
      when the scan reached it, and no later step changes it. */
  lemma {:induction false} ScannedSettled(d: Diffuser, s0: seq<real>, w: int, h: nat, y: nat, x: int, jx: int, jy: nat)
    requires ValidDiffuser(d) && |s0| == Area(w, h) && 0 <= x <= w && y <= h && (x > 0 ==> y < h)
    requires 0 <= jx < w && jy < h && Before(jx, jy, x, y)
    ensures (CellInGrid(jx, jy, w, h);
      Scanned(d, s0, w, h, y, x)[Cell(jx, jy, w)] == Quantize(Scanned(d, s0, w, h, jy, jx)[Cell(jx, jy, w)]))
    decreases y, x
  {
    CellInGrid(jx, jy, w, h);
    if x > 0 {
      var j := Cell(jx, jy, w);
      if jx == x - 1 && jy == y {
        StepKeepsEarlier(d, Scanned(d, s0, w, h, y, x - 1), w, h, x - 1, y, j);
      } else {
        CellLater(jx, jy, x - 1, y, w);
        StepKeepsEarlier(d, Scanned(d, s0, w, h, y, x - 1), w, h, x - 1, y, j);
        ScannedSettled(d, s0, w, h, y, x - 1, jx, jy);
      }
    } else if y > 0 {
      ScannedSettled(d, s0, w, h, y - 1, w, jx, jy);
    }
  }

  /** Every cell of the finished scan holds 0 or 255. */
  lemma DiffusedBinary(d: Diffuser, s0: seq<real>, w: int, h: nat)
    requires ValidDiffuser(d) && w >= 0 && |s0| == Area(w, h)
    ensures forall j :: 0 <= j < |s0| ==> IsBinary(Diffused(d, s0, w, h)[j])
  {
    forall j | 0 <= j < |s0| ensures IsBinary(Diffused(d, s0, w, h)[j]) {
      AreaIs(w, h);
      CellOfIndex(j, w, h);
      ScannedSettled(d, s0, w, h, h, 0, j % w, j / w);
    }
  }

  /** An all-black or all-white buffer is a fixed point: every quantisation error is 0. */
  lemma {:induction false} ConstantUnchanged(d: Diffuser, s0: seq<real>, w: int, h: nat, y: nat, x: int, c: real)
    requires ValidDiffuser(d) && |s0| == Area(w, h) && 0 <= x <= w && y <= h && (x > 0 ==> y < h)
    requires IsBinary(c) && forall i :: 0 <= i < |s0| ==> s0[i] == c
    ensures Scanned(d, s0, w, h, y, x) == s0
    decreases y, x
  {
    if x > 0 {
      ConstantUnchanged(d, s0, w, h, y, x - 1, c);
      var i := Cell(x - 1, y, w);
      StepAtSpreads(d, s0, w, h, x - 1, y, i);
      assert s0[i := Quantize(s0[i])] == s0;
      assert (s0[i] - Quantize(s0[i])) * ErrorFactor(d) == 0.0;
      var k := KernelAt(d, s0[i]);
      SpreadZero(s0, w, h, x - 1, y, k, |k.taps|);
    } else if y > 0 {
      ConstantUnchanged(d, s0, w, h, y - 1, w, c);
    }
  }

  /** An all-black or all-white image comes back from either diffuser byte for byte. */
  lemma ConstantStored(d: Diffuser, g: seq<Byte>, w: int, h: nat, c: Byte)
    requires ValidDiffuser(d) && w >= 0 && |g| == Area(w, h)
    requires (c == 0 || c == 255) && forall i :: 0 <= i < |g| ==> g[i] == c
    ensures Stored(Diffused(d, ToReals(g), w, h)) == g
  {
    ConstantUnchanged(d, ToReals(g), w, h, h, 0, c as real);
    ToByteIntegral(c);
  }

  /** The quantised buffer as the diffusers return it: every accumulator value clamped
      to [0, 255] and stored as a byte. */
  function Stored(s: seq<real>): (r: seq<Byte>)
    ensures |r| == |s| && forall i :: 0 <= i < |s| ==> r[i] == ToByte(s[i])
  {
    seq(|s|, i requires 0 <= i < |s| => ToByte(s[i]))
  }

  /** Sends err's share to each in-grid target of k's taps, in tap order. */
  method SpreadError(pixels: array<real>, w: int, h: nat, x: int, y: nat, err: real, k: Kernel)
    requires pixels.Length == Area(w, h) && k.divisor != 0 && 0 <= x < w && y < h
    modifies pixels
    ensures pixels[..] == Spread(old(pixels[..]), w, h, x, y, err, k, |k.taps|)
  {
    ghost var s := pixels[..];
    for j := 0 to |k.taps|
      invariant pixels[..] == Spread(s, w, h, x, y, err, k, j)
    {
      var t := k.taps[j];
      var nx, ny := x + t.dx, y + t.dy;
      var share := Share(err, t, k);
      SpreadStep(s, w, h, x, y, err, k, j);
      if nx >= 0 && nx < w && ny >= 0 && ny < h {
        AddAt(pixels, w, h, nx, ny, share);
      }
    }
  }

  /** pixels[ny * w + nx] += share. */
  method AddAt(pixels: array<real>, w: int, h: nat, nx: int, ny: nat, share: real)
    requires pixels.Length == Area(w, h) && 0 <= nx < w && ny < h
    modifies pixels
    ensures pixels[..] == Push(old(pixels[..]), w, h, nx, ny, share)
  {
    CellIs(nx, ny, w);
    CellInGrid(nx, ny, w, h);
    pixels[ny * w + nx] := pixels[ny * w + nx] + share;
  }

  /** Replaces the value at cell (x, y) by its quantisation; returns the value it had
      and the value stored. */
  method QuantizeAt(pixels: array<real>, w: int, h: nat, x: int, y: nat) returns (v: real, q: real)
    requires pixels.Length == Area(w, h) && 0 <= x < w && y < h
    modifies pixels
    ensures (CellInGrid(x, y, w, h); var i := Cell(x, y, w);
      v == old(pixels[i]) && q == Quantize(v) && pixels[..] == old(pixels[..])[i := q])
  {
    CellIs(x, y, w);
    CellInGrid(x, y, w, h);
    var idx := y * w + x;
    v := pixels[idx];
    q := if v > 127.0 then 255.0 else 0.0;
    pixels[idx] := q;
  }

  /** Visits cell (x, y) of the fixed-kernel scan: quantise, then spread the error scaled
      by the bleed factor. */
  method DiffuseCell(pixels: array<real>, w: int, h: nat, x: int, y: nat, k: Kernel, bleedFactor: real)
    requires pixels.Length == Area(w, h) && WellFormed(k) && 0 <= x < w && y < h
    modifies pixels
    ensures pixels[..] == StepAt(Fixed(k, bleedFactor), old(pixels[..]), w, h, x, y)
  {
    ghost var s := pixels[..];
    var v, q := QuantizeAt(pixels, w, h, x, y);
    var err := (v - q) * bleedFactor;
    ghost var s1 := pixels[..];
    SpreadError(pixels, w, h, x, y, err, k);
    assert pixels[..] == StepAt(Fixed(k, bleedFactor), s, w, h, x, y) by {
      var d, i := Fixed(k, bleedFactor), Cell(x, y, w);
      StepAtSpreads(d, s, w, h, x, y, i);
      assert s1 == s[i := Quantize(s[i])];
      assert err == (s[i] - Quantize(s[i])) * ErrorFactor(d);
      assert KernelAt(d, s[i]) == k;
      calc {
        StepAt(d, s, w, h, x, y);
        Spread(s[i := Quantize(s[i])], w, h, x, y, (s[i] - Quantize(s[i])) * ErrorFactor(d), KernelAt(d, s[i]), |KernelAt(d, s[i]).taps|);
        Spread(s1, w, h, x, y, err, k, |k.taps|);
      }
    }
  }

  /** Pushes err right, down-left and down with weights c1, c2, c3 out of their sum, in
      that order, each when its target is inside the grid. */
  method PushError(pixels: array<real>, w: int, h: nat, x: int, y: nat, err: real, c1: int, c2: int, c3: int)
    requires pixels.Length == Area(w, h) && 0 <= x < w && y < h && c1 + c2 + c3 != 0
    modifies pixels
    ensures pixels[..] == Spread(old(pixels[..]), w, h, x, y, err, Kernel(c1 + c2 + c3, [Tap(1, 0, c1), Tap(-1, 1, c2), Tap(0, 1, c3)]), 3)
  {
    var sum := c1 + c2 + c3;
    ghost var k := Kernel(sum, [Tap(1, 0, c1), Tap(-1, 1, c2), Tap(0, 1, c3)]);
    ghost var s0 := pixels[..];
    var right := err * c1 as real / sum as real;
    assert right == Share(err, k.taps[0], k);
    if x + 1 < w {
      AddAt(pixels, w, h, x + 1, y, right);
    }
    ghost var s1 := pixels[..];
    assert s1 == Push(s0, w, h, x + 1, y + 0, right);
    var downLeft := err * c2 as real / sum as real;
    assert downLeft == Share(err, k.taps[1], k);
    if y + 1 < h && x - 1 >= 0 {
      AddAt(pixels, w, h, x - 1, y + 1, downLeft);
    }
    ghost var s2 := pixels[..];
    assert s2 == Push(s1, w, h, x + -1, y + 1, downLeft);
    var down := err * c3 as real / sum as real;
    assert down == Share(err, k.taps[2], k);
    if y + 1 < h {
      AddAt(pixels, w, h, x, y + 1, down);
    }
    assert pixels[..] == Push(s2, w, h, x + 0, y + 1, down);
    SpreadThree(s0, s1, s2, pixels[..], w, h, x, y, err, k);
  }

  /** Visits cell (x, y) of the variable-coefficient scan: quantise, then push the error
      with the coefficients chosen by the value the cell held. */
  method OstromoukhovCell(pixels: array<real>, w: int, h: nat, x: int, y: nat)
    requires pixels.Length == Area(w, h) && 0 <= x < w && y < h
    modifies pixels
    ensures pixels[..] == StepAt(Ostromoukhov, old(pixels[..]), w, h, x, y)
  {
    ghost var s := pixels[..];
    var v, q := QuantizeAt(pixels, w, h, x, y);
    var err := v - q;
    var (c1, c2, c3) := Coefficients(v);
    ghost var s1 := pixels[..];
    PushError(pixels, w, h, x, y, err, c1, c2, c3);
    assert pixels[..] == StepAt(Ostromoukhov, s, w, h, x, y) by {
      var i := Cell(x, y, w);
      var k := OstromoukhovKernel(v);
      StepAtSpreads(Ostromoukhov, s, w, h, x, y, i);
      assert s1 == s[i := Quantize(s[i])];
      assert err == (s[i] - Quantize(s[i])) * ErrorFactor(Ostromoukhov);
      assert KernelAt(Ostromoukhov, s[i]) == k;
      calc {
        StepAt(Ostromoukhov, s, w, h, x, y);
        Spread(s[i := Quantize(s[i])], w, h, x, y, (s[i] - Quantize(s[i])) * ErrorFactor(Ostromoukhov), KernelAt(Ostromoukhov, s[i]), |KernelAt(Ostromoukhov, s[i]).taps|);
        Spread(s1, w, h, x, y, err, k, |k.taps|);
      }
    }
  }

  /** The fresh accumulator: the gray bytes as reals. */
  method Accumulator(gray: array<Byte>) returns (pixels: array<real>)
    ensures fresh(pixels) && pixels[..] == ToReals(gray[..])
  {
    pixels := new real[gray.Length](i reads gray requires 0 <= i < gray.Length => gray[i] as real);
  }

  /** Every accumulator value clamped to [0, 255] and stored as a byte. */
  method Store(pixels: array<real>) returns (out: array<Byte>)
    ensures fresh(out) && out[..] == Stored(pixels[..])
  {
    out := new Byte[pixels.Length];
    for i := 0 to pixels.Length
      invariant forall j :: 0 <= j < i ==> out[j] == ToByte(pixels[j])
    {
      var v := pixels[i];
      out[i] := ToByte(if v < 0.0 then 0.0 else if v > 255.0 then 255.0 else v);
    }
  }

  lemma StoredBinary(s: seq<real>)
    requires forall i :: 0 <= i < |s| ==> IsBinary(s[i])
    ensures forall i :: 0 <= i < |s| ==> Stored(s)[i] == 0 || Stored(s)[i] == 255
  {
  }

  /** Fixed-kernel error diffusion over a w-by-h gray image, with the error scaled by
      0.5 + bleed/100. The result is the stored scan, and every pixel is 0 or 255. */
  method DiffuseFixed(gray: array<Byte>, w: int, h: int, k: Kernel, bleed: real) returns (out: array<Byte>)
    requires w >= 0 && h >= 0 && gray.Length == w * h && WellFormed(k)
    ensures fresh(out)
    ensures (AreaIs(w, h); out[..] == Stored(Diffused(Fixed(k, 0.5 + bleed / 100.0), ToReals(gray[..]), w, h)))
    ensures forall i :: 0 <= i < out.Length ==> out[i] == 0 || out[i] == 255
  {
    AreaIs(w, h);
    var pixels := Accumulator(gray);
    var bleedFactor := 0.5 + bleed / 100.0;
    ghost var d := Fixed(k, bleedFactor);
    ghost var s0 := pixels[..];
    var y := 0;
    while y < h
      invariant 0 <= y <= h
      invariant pixels[..] == Scanned(d, s0, w, h, y, 0)
    {
      var x := 0;
      while x < w
        invariant 0 <= x <= w
        invariant pixels[..] == Scanned(d, s0, w, h, y, x)
      {
        DiffuseCell(pixels, w, h, x, y, k, bleedFactor);
        x := x + 1;
      }
      y := y + 1;
    }
    assert pixels[..] == Diffused(d, s0, w, h);
    out := Store(pixels);
    DiffusedBinary(d, s0, w, h);
    StoredBinary(pixels[..]);
  }

  /** Variable-coefficient (Ostromoukhov) error diffusion; every pixel of the result is 0
      or 255. */
  method ApplyOstromoukhov(gray: array<Byte>, w: int, h: int) returns (out: array<Byte>)
    requires w >= 0 && h >= 0 && gray.Length == w * h
    ensures fresh(out)
    ensures (AreaIs(w, h); out[..] == Stored(Diffused(Ostromoukhov, ToReals(gray[..]), w, h)))
    ensures forall i :: 0 <= i < out.Length ==> out[i] == 0 || out[i] == 255
  {
    AreaIs(w, h);
    var pixels := Accumulator(gray);
    ghost var s0 := pixels[..];
    var y := 0;
    while y < h
      invariant 0 <= y <= h
      invariant pixels[..] == Scanned(Ostromoukhov, s0, w, h, y, 0)
    {
      var x := 0;
      while x < w
        invariant 0 <= x <= w
        invariant pixels[..] == Scanned(Ostromoukhov, s0, w, h, y, x)
      {
        OstromoukhovCell(pixels, w, h, x, y);
        x := x + 1;
      }
      y := y + 1;
    }
    assert pixels[..] == Diffused(Ostromoukhov, s0, w, h);
    out := Store(pixels);
    DiffusedBinary(Ostromoukhov, s0, w, h);
    StoredBinary(pixels[..]);
  }
}
