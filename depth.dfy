/** The depth shadow: every dark pixel of the mask darkens the pixel `offset` columns to
    its left in the same row. Reads come only from the input mask, so a shadow never casts
    a shadow of its own. */
module Depth {

  import opened Bytes
  import opened Grid

  /** The shadowed mask: pixel i, at column i % w, is 0 when it was 0 or when the pixel
      offset columns to its right in the same row is 0; otherwise it is unchanged. */
  function Shadowed(d: seq<Byte>, w: int, offset: nat): (r: seq<Byte>)
    requires |d| == 0 || w > 0
    ensures |r| == |d|
  {
    seq(|d|, i requires 0 <= i < |d| =>
      if i % w + offset < w && i + offset < |d| && d[i + offset] == 0 then 0 else d[i])
  }

  /** Pixel (x, y) of the shadowed mask is 0 when the input is 0 offset columns to its
      right in the same row; otherwise it keeps the input value. */
  lemma ShadowedAt(d: seq<Byte>, w: int, h: int, offset: nat, x: int, y: int)
    requires |d| == w * h && 0 <= x < w && 0 <= y < h
    ensures 0 <= y * w + x < |d| && (x + offset < w ==> y * w + x + offset < |d|)
    ensures Shadowed(d, w, offset)[y * w + x]
      == if x + offset < w && d[y * w + x + offset] == 0 then 0 else d[y * w + x]
  {
    RowMajor(x, y, w, h);
    if x + offset < w {
      RowMajor(x + offset, y, w, h);
    }
  }

  /** The shadow only darkens: each pixel keeps its value or becomes 0. */
  lemma ShadowDarkens(d: seq<Byte>, w: int, offset: nat)
    requires |d| == 0 || w > 0
    ensures forall i :: 0 <= i < |d| ==> Shadowed(d, w, offset)[i] in {0, d[i]}
  {
  }

  /** A two-level mask stays two-level. */
  lemma ShadowBinary(d: seq<Byte>, w: int, offset: nat)
    requires |d| == 0 || w > 0
    requires forall i :: 0 <= i < |d| ==> d[i] == 0 || d[i] == 255
    ensures forall i :: 0 <= i < |Shadowed(d, w, offset)| ==> Shadowed(d, w, offset)[i] == 0 || Shadowed(d, w, offset)[i] == 255
  {
  }

  /** The shadow at the right edge: the last offset columns of each row cast nothing onto
      the start of the next row. */
  lemma ShadowStaysInRow(d: seq<Byte>, w: int, h: int, offset: nat, x: int, y: int)
    requires |d| == w * h && 0 <= x < w && 0 <= y < h && x + offset >= w
    ensures 0 <= y * w + x < |d| && Shadowed(d, w, offset)[y * w + x] == d[y * w + x]
  {
    ShadowedAt(d, w, h, offset, x, y);
  }

  /** The depth effect with offset floor(depth). Offset 0 returns the input buffer itself;
      otherwise a fresh buffer holds the shadowed mask. The input is never written. */
  method ApplyDepth(dithered: array<Byte>, w: int, h: int, depth: real) returns (output: array<Byte>)
    requires w >= 0 && h >= 0 && dithered.Length == w * h && depth >= 0.0
    ensures depth.Floor == 0 ==> output == dithered
    ensures depth.Floor != 0 ==> fresh(output) && output[..] == Shadowed(dithered[..], w, depth.Floor)
  {
    var offset := depth.Floor;
    if offset == 0 {
      return dithered;
    }
    output := new Byte[dithered.Length](i reads dithered requires 0 <= i < dithered.Length => dithered[i]);
    for y := 0 to h
      invariant forall j :: 0 <= j < output.Length ==>
        output[j] == if j < y * w then Shadowed(dithered[..], w, offset)[j] else dithered[j]
    {
      DepthRow(dithered, output, w, h, y, offset);
    }
    assert h * w == w * h;
  }

  /** Row y of the depth effect: for x from offset to w - 1, a 0 at x writes 0 at
      x - offset. */
  method DepthRow(dithered: array<Byte>, output: array<Byte>, w: int, h: int, y: int, offset: int)
    requires dithered != output && dithered.Length == output.Length == w * h && 0 <= y < h && offset > 0
    requires forall j :: 0 <= j < output.Length ==>
      output[j] == if j < y * w then Shadowed(dithered[..], w, offset)[j] else dithered[j]
    modifies output
    ensures forall j :: 0 <= j < output.Length ==>
      output[j] == if j < (y + 1) * w then Shadowed(dithered[..], w, offset)[j] else dithered[j]
  {
    ghost var base := y * w;
    ghost var s := Shadowed(dithered[..], w, offset);
    assert 0 <= base && base + w <= output.Length by {
      if w > 0 {
        RowMajor(0, y, w, h);
        RowMajor(w - 1, y, w, h);
      }
    }
    var x := offset;
    while x < w
      invariant offset <= x && (x <= w || x == offset)
      invariant forall j :: 0 <= j < output.Length ==>
        output[j] == if j < base + x - offset then s[j] else dithered[j]
    {
      ShadowedAt(dithered[..], w, h, offset, x - offset, y);
      RowMajor(x, y, w, h);
      if dithered[y * w + x] == 0 {
        output[y * w + (x - offset)] := 0;
      }
      x := x + 1;
    }
    forall j | base + x - offset <= j < base + w
      ensures s[j] == dithered[j]
    {
      ShadowedAt(dithered[..], w, h, offset, j - base, y);
    }
    assert base + w == (y + 1) * w;
  }
}
