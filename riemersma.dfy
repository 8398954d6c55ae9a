/** The serpentine single-error diffuser: rows are scanned alternately left to right and
    right to left, and one damped error value is carried from each visited cell to the
    next one, across row ends as well. */
module Riemersma {

  import opened Bytes
  import opened Grid
  import Diffusion

  /** The share of each error carried on: intensity/20 held to [0.1, 0.9]. */
  function Damping(intensity: real): (d: real)
    ensures 0.1 <= d <= 0.9
    ensures 0.1 <= intensity / 20.0 <= 0.9 ==> d == intensity / 20.0
    ensures intensity / 20.0 < 0.1 ==> d == 0.1
    ensures intensity / 20.0 > 0.9 ==> d == 0.9
  {
    var m := if 0.9 < intensity / 20.0 then 0.9 else intensity / 20.0;
    if 0.1 < m then m else 0.1
  }

  /** The column visited at step x of row y: left to right on even rows, right to left on
      odd rows. */
  function Column(x: int, y: nat, w: int): (c: int)
    requires 0 <= x < w
    ensures 0 <= c < w
  {
    if y % 2 == 0 then x else w - 1 - x
  }

  /** Within one row the visiting order is a bijection on the columns: it is its own
      inverse. */
  lemma ColumnInvolutive(x: int, y: nat, w: int)
    requires 0 <= x < w
    ensures Column(Column(x, y, w), y, w) == x
  {
  }

  /** The byte written for a value: the shared quantiser's level, stored as a byte. */
  function Threshold(v: real): (b: Byte)
    ensures b as real == Diffusion.Quantize(v)
  {
    Diffusion.Quantize(v).Floor
  }

  /** The scan state: the output bytes and the error carried to the next visit. */
  datatype Scan = Scan(out: seq<Byte>, err: real)

  /** Visiting index i: the gray value there plus the carried error is thresholded into the
      output, and the damped difference is carried on. */
  function Visit(gray: seq<Byte>, sc: Scan, i: int, damping: real): (r: Scan)
    requires |sc.out| == |gray| && 0 <= i < |gray|
    ensures |r.out| == |gray|
  {
    var v := gray[i] as real + sc.err;
    var o := Threshold(v);
    Scan(sc.out[i := o], (v - o as real) * damping)
  }

  /** The state after the rows above y and the first x visits of row y. The output starts
      as a copy of the gray image and the carried error at 0. */
  function Serpent(gray: seq<Byte>, w: int, h: nat, damping: real, y: nat, x: int): (r: Scan)
    requires |gray| == Area(w, h) && 0 <= x <= w && y <= h && (x > 0 ==> y < h)
    ensures |r.out| == |gray|
    decreases y, x
  {
    if x > 0 then
      var c := Column(x - 1, y, w);
      CellInGrid(c, y, w, h);
      Visit(gray, Serpent(gray, w, h, damping, y, x - 1), Cell(c, y, w), damping)
    else if y == 0 then Scan(gray, 0.0)
    else Serpent(gray, w, h, damping, y - 1, w)
  }

  /** One visit keeps the carried error within 128 * damping: the value it sees is at most
      128 away from the byte it is thresholded to. */
  lemma VisitBounded(gray: seq<Byte>, sc: Scan, i: int, damping: real)
    requires |sc.out| == |gray| && 0 <= i < |gray| && 0.0 <= damping <= 1.0
    requires -128.0 * damping <= sc.err <= 128.0 * damping
    ensures -128.0 * damping <= Visit(gray, sc, i, damping).err <= 128.0 * damping
  {
    var v := gray[i] as real + sc.err;
    var e := v - Threshold(v) as real;
    assert Visit(gray, sc, i, damping).err == e * damping;
    assert -128.0 <= e <= 128.0;
    DampedWithin(e, damping);
  }

  lemma DampedWithin(e: real, damping: real)
    requires -128.0 <= e <= 128.0 && 0.0 <= damping
    ensures -128.0 * damping <= e * damping <= 128.0 * damping
  {
    assert 128.0 * damping - e * damping == (128.0 - e) * damping;
    assert e * damping + 128.0 * damping == (e + 128.0) * damping;
  }

  /** The carried error never exceeds 128 * damping in magnitude. */
  lemma {:induction false} SerpentBounded(gray: seq<Byte>, w: int, h: nat, damping: real, y: nat, x: int)
    requires |gray| == Area(w, h) && 0 <= x <= w && y <= h && (x > 0 ==> y < h)
    requires 0.0 <= damping <= 1.0
    ensures var e := Serpent(gray, w, h, damping, y, x).err; -128.0 * damping <= e <= 128.0 * damping
    decreases y, x
  {
    if x > 0 {
      var c := Column(x - 1, y, w);
      CellInGrid(c, y, w, h);
      SerpentBounded(gray, w, h, damping, y, x - 1);
      VisitBounded(gray, Serpent(gray, w, h, damping, y, x - 1), Cell(c, y, w), damping);
    } else if y > 0 {
      SerpentBounded(gray, w, h, damping, y - 1, w);
    }
  }

  /** Visit x of row y follows the first x visits of that row. */
  lemma SerpentNext(gray: seq<Byte>, w: int, h: nat, damping: real, y: nat, x: int)
    requires |gray| == Area(w, h) && 0 <= x < w && y < h
    ensures (CellInGrid(Column(x, y, w), y, w, h);
      Serpent(gray, w, h, damping, y, x + 1)
        == Visit(gray, Serpent(gray, w, h, damping, y, x), Cell(Column(x, y, w), y, w), damping))
  {
    CellInGrid(Column(x, y, w), y, w, h);
  }

  /** Two different visits write two different cells. */
  lemma VisitsDistinct(jx: int, jy: nat, x: int, y: nat, w: int)
    requires 0 <= jx < w && 0 <= x < w && Before(jx, jy, x, y)
    ensures Cell(Column(jx, jy, w), jy, w) != Cell(Column(x, y, w), y, w)
  {
    if Cell(Column(jx, jy, w), jy, w) == Cell(Column(x, y, w), y, w) {
      CellInjective(Column(jx, jy, w), jy, Column(x, y, w), y, w);
      ColumnInvolutive(jx, jy, w);
      ColumnInvolutive(x, y, w);
    }
  }

  /** Once visit (jx, jy) is done, its cell holds the threshold of the gray value there plus
      the error carried into that visit, and no later visit changes it. */
  lemma {:induction false} SerpentSettled(gray: seq<Byte>, w: int, h: nat, damping: real, y: nat, x: int, jx: int, jy: nat)
    requires |gray| == Area(w, h) && 0 <= x <= w && y <= h && (x > 0 ==> y < h)
    requires 0 <= jx < w && jy < h && Before(jx, jy, x, y)
    ensures (CellInGrid(Column(jx, jy, w), jy, w, h); var j := Cell(Column(jx, jy, w), jy, w);
      Serpent(gray, w, h, damping, y, x).out[j]
        == Threshold(gray[j] as real + Serpent(gray, w, h, damping, jy, jx).err))
    decreases y, x
  {
    CellInGrid(Column(jx, jy, w), jy, w, h);
    if x > 0 {
      var c := Column(x - 1, y, w);
      CellInGrid(c, y, w, h);
      if !(jx == x - 1 && jy == y) {
        VisitsDistinct(jx, jy, x - 1, y, w);
        SerpentSettled(gray, w, h, damping, y, x - 1, jx, jy);
      }
    } else if y > 0 {
      SerpentSettled(gray, w, h, damping, y - 1, w, jx, jy);
    }
  }

  /** Every byte of the finished scan is 0 or 255: each cell is visited. */
  lemma SerpentBinary(gray: seq<Byte>, w: int, h: nat, damping: real)
    requires w >= 0 && |gray| == Area(w, h)
    ensures forall j :: 0 <= j < |gray| ==> Serpent(gray, w, h, damping, h, 0).out[j] in {0, 255}
  {
    forall j | 0 <= j < |gray| ensures Serpent(gray, w, h, damping, h, 0).out[j] in {0, 255} {
      AreaIs(w, h);
      CellOfIndex(j, w, h);
      var cx, cy := j % w, j / w;
      ColumnInvolutive(cx, cy, w);
      SerpentSettled(gray, w, h, damping, h, 0, Column(cx, cy, w), cy);
    }
  }

  /** Visit x of row y: threshold gray plus the carried error into the output at the
      visited column, and return the damped difference. */
  method VisitCell(gray: array<Byte>, output: array<Byte>, w: int, h: nat, x: int, y: nat, isEven: bool, error: real, damping: real)
    returns (next: real)
    requires gray != output && gray.Length == output.Length == Area(w, h) && 0 <= x < w && y < h
    requires isEven == (y % 2 == 0)
    modifies output
    ensures (CellInGrid(Column(x, y, w), y, w, h);
      var r := Visit(gray[..], Scan(old(output[..]), error), Cell(Column(x, y, w), y, w), damping);
      output[..] == r.out && next == r.err)
  {
    var realX := if isEven then x else w - 1 - x;
    CellIs(realX, y, w);
    CellInGrid(realX, y, w, h);
    var idx := y * w + realX;
    var val := gray[idx] as real + error;
    var out: Byte := if val > 127.0 then 255 else 0;
    output[idx] := out;
    next := (val - out as real) * damping;
  }

  /** Serpentine error diffusion of a w-by-h gray image: the output is the finished scan
      with damping taken from the intensity, and every pixel is 0 or 255. */
  method ApplyRiemersma(gray: array<Byte>, w: int, h: int, intensity: real) returns (output: array<Byte>)
    requires w >= 0 && h >= 0 && gray.Length == w * h
    ensures fresh(output)
    ensures (AreaIs(w, h); output[..] == Serpent(gray[..], w, h, Damping(intensity), h, 0).out)
    ensures forall i :: 0 <= i < output.Length ==> output[i] == 0 || output[i] == 255
  {
    AreaIs(w, h);
    output := new Byte[gray.Length](i reads gray requires 0 <= i < gray.Length => gray[i]);
    var error := 0.0;
    var damping := intensity / 20.0;
    if 0.9 < damping {
      damping := 0.9;
    }
    if damping < 0.1 {
      damping := 0.1;
    }
    assert damping == Damping(intensity);
    ghost var g := gray[..];
    var y := 0;
    while y < h
      invariant 0 <= y <= h
      invariant output[..] == Serpent(g, w, h, damping, y, 0).out
      invariant error == Serpent(g, w, h, damping, y, 0).err
    {
      var isEven := y % 2 == 0;
      var x := 0;
      while x < w
        invariant 0 <= x <= w
        invariant output[..] == Serpent(g, w, h, damping, y, x).out
        invariant error == Serpent(g, w, h, damping, y, x).err
      {
        SerpentNext(g, w, h, damping, y, x);
        error := VisitCell(gray, output, w, h, x, y, isEven, error, damping);
        x := x + 1;
      }
      y := y + 1;
    }
    SerpentBinary(g, w, h, damping);
  }
}
