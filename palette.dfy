/** The palette ramp: each gray level picks a position along the list of colours and
    blends linearly between the two stops around it, one byte per channel. */
module Palette {

  import opened Bytes
  import opened Colors

  /** The number of intervals of the ramp: one less than the colours, at least 1. */
  function Stops(n: int): (s: int)
    ensures s >= 1
  {
    if n - 1 < 1 then 1 else n - 1
  }

  /** Stop k of the ramp, or black where the list has no colour k. */
  function StopAt(colors: seq<Rgb>, k: int): Rgb {
    if 0 <= k < |colors| then colors[k] else Black
  }

  /** How far a blend moves from a towards b: the fraction frac of the gap between them. */
  function Offset(a: Byte, b: Byte, frac: real): real {
    (b as real - a as real) * frac
  }

  /** One channel blended a fraction frac of the way from a to b, stored as a byte. */
  function Mix(a: Byte, b: Byte, frac: real): Byte {
    ToByte(a as real + Offset(a, b, frac))
  }

  function Min(a: int, b: int): int {
    if a < b then a else b
  }

  /** Where gray level g falls along a ramp of the given number of intervals. */
  function Position(g: Byte, stops: int): real {
    g as real / 255.0 * stops as real
  }

  /** Two colours blended channel by channel. */
  function Blend(c1: Rgb, c2: Rgb, frac: real): Rgb {
    Rgb(Mix(c1.r, c2.r, frac), Mix(c1.g, c2.g, frac), Mix(c1.b, c2.b, frac))
  }

  /** The colour of gray level g: position g/255 * stops along the ramp, blended between
      the stops at the floor of the position and the next one, both capped at the last. */
  function RampColor(colors: seq<Rgb>, g: Byte): Rgb {
    var stops := Stops(|colors|);
    var pos := Position(g, stops);
    var idx := pos.Floor;
    Blend(StopAt(colors, Min(idx, stops)), StopAt(colors, Min(idx + 1, stops)), pos - idx as real)
  }

  /** The palette mapper's output: three bytes per gray sample, its colour's channels. */
  function Ramped(gray: seq<Byte>, colors: seq<Rgb>): (r: seq<Byte>)
    ensures |r| == 3 * |gray|
  {
    seq(3 * |gray|, j requires 0 <= j < 3 * |gray| => RampColor(colors, gray[j / 3]).Channel(j % 3))
  }

  /** Maps a gray buffer through the ramp into a fresh buffer of RGB triples. */
  method ApplyPalette(gray: array<Byte>, colors: seq<Rgb>) returns (output: array<Byte>)
    ensures fresh(output) && output[..] == Ramped(gray[..], colors)
  {
    output := new Byte[gray.Length * 3];
    var stops := if |colors| - 1 < 1 then 1 else |colors| - 1;
    for i := 0 to gray.Length
      invariant forall k, c :: 0 <= k < i && 0 <= c < 3 ==> output[3 * k + c] == RampColor(colors, gray[k]).Channel(c)
    {
      var color := ColorOf(colors, stops, gray[i]);
      output[i * 3] := color.r;
      output[i * 3 + 1] := color.g;
      output[i * 3 + 2] := color.b;
    }
    RampedTriples(output[..], gray[..], colors);
  }

  /** The colour of one gray value: its position along the ramp, the stops at the floor of
      the position and the next one (past the list: black), blended by the fractional part. */
  method ColorOf(colors: seq<Rgb>, stops: int, g: Byte) returns (color: Rgb)
    requires stops == Stops(|colors|)
    ensures color == RampColor(colors, g)
  {
    var pos := g as real / 255.0 * stops as real;
    var idx := pos.Floor;
    var frac := pos - idx as real;
    var i1 := if idx < stops then idx else stops;
    var i2 := if idx + 1 < stops then idx + 1 else stops;
    var c1 := if i1 < |colors| then colors[i1] else Rgb(0, 0, 0);
    var c2 := if i2 < |colors| then colors[i2] else Rgb(0, 0, 0);
    assert pos == Position(g, stops);
    color := Rgb(Mix(c1.r, c2.r, frac), Mix(c1.g, c2.g, frac), Mix(c1.b, c2.b, frac));
  }

  /** A buffer whose triple k holds the colour of gray sample k is the ramped buffer. */
  lemma RampedTriples(out: seq<Byte>, gray: seq<Byte>, colors: seq<Rgb>)
    requires |out| == 3 * |gray|
    requires forall k, c :: 0 <= k < |gray| && 0 <= c < 3 ==> out[3 * k + c] == RampColor(colors, gray[k]).Channel(c)
    ensures out == Ramped(gray, colors)
  {
    forall j | 0 <= j < |out| ensures out[j] == Ramped(gray, colors)[j] {
      var k, c := j / 3, j % 3;
      assert j == 3 * k + c;
    }
  }

  /** Black input takes the first colour exactly; with two colours or more, white input
      takes the last colour exactly. */
  lemma RampEnds(colors: seq<Rgb>)
    requires |colors| >= 1
    ensures RampColor(colors, 0) == colors[0]
    ensures |colors| >= 2 ==> RampColor(colors, 255) == colors[|colors| - 1]
  {
    var stops := Stops(|colors|);
    assert Position(0, stops) == 0.0;
    BlendSame(colors[0]);
    if |colors| >= 2 {
      assert Position(255, stops) == stops as real;
      BlendSame(colors[|colors| - 1]);
    }
  }

  /** A colour blended with itself, or not blended at all, stays the same colour. */
  lemma BlendSame(c: Rgb)
    ensures forall c2: Rgb :: Blend(c, c2, 0.0) == c
    ensures forall f: real :: Blend(c, c, f) == c
  {
    ToByteIntegral(c.r);
    ToByteIntegral(c.g);
    ToByteIntegral(c.b);
  }

  /** With a single colour the ramp runs from that colour to black: white input, at the
      second stop, finds no colour there. An empty list maps everything to black. */
  lemma SingleColourRamp(colors: seq<Rgb>, g: Byte)
    requires |colors| <= 1
    ensures |colors| == 1 ==> RampColor(colors, 255) == Black
    ensures |colors| == 0 ==> RampColor(colors, g) == Black
  {
    assert Position(255, 1) == 1.0;
    BlendSame(Black);
  }

  lemma ScaleWithin(d: real, f: real)
    requires d >= 0.0 && 0.0 <= f <= 1.0
    ensures 0.0 <= d * f <= d
  {
    assert d - d * f == d * (1.0 - f);
  }

  lemma ScaleWithinNeg(d: real, f: real)
    requires d <= 0.0 && 0.0 <= f <= 1.0
    ensures d <= d * f <= 0.0
  {
    assert d * f - d == (-d) * (1.0 - f);
    assert 0.0 <= (-d) * f;
  }

  /** A blend moves at most the whole gap, and in its direction. */
  lemma OffsetWithin(a: Byte, b: Byte, frac: real)
    requires 0.0 <= frac <= 1.0
    ensures a <= b ==> 0.0 <= Offset(a, b, frac) <= b as real - a as real
    ensures b <= a ==> b as real - a as real <= Offset(a, b, frac) <= 0.0
  {
    var d := b as real - a as real;
    assert Offset(a, b, frac) == d * frac;
    if a <= b {
      ScaleWithin(d, frac);
    } else {
      ScaleWithinNeg(d, frac);
    }
  }

  /** A blend stays between its two endpoints. */
  lemma MixBetween(a: Byte, b: Byte, frac: real)
    requires 0.0 <= frac <= 1.0
    ensures a <= b ==> a <= Mix(a, b, frac) <= b
    ensures b <= a ==> b <= Mix(a, b, frac) <= a
  {
    OffsetWithin(a, b, frac);
    var v := a as real + Offset(a, b, frac);
    if a <= b {
      ToByteBetween(a, v, b);
    } else {
      ToByteBetween(b, v, a);
    }
  }

  /** Every channel of a ramp colour lies between the same channel of the two stops around
      the gray level's position. */
  lemma RampBetween(colors: seq<Rgb>, g: Byte, k: int)
    requires 0 <= k < 3
    ensures var stops := Stops(|colors|);
      var idx := Position(g, stops).Floor;
      var a := StopAt(colors, Min(idx, stops)).Channel(k);
      var b := StopAt(colors, Min(idx + 1, stops)).Channel(k);
      var v := RampColor(colors, g).Channel(k);
      (a <= b ==> a <= v <= b) && (b <= a ==> b <= v <= a)
  {
    var stops := Stops(|colors|);
    var pos := Position(g, stops);
    var idx := pos.Floor;
    var c1 := StopAt(colors, Min(idx, stops));
    var c2 := StopAt(colors, Min(idx + 1, stops));
    MixBetween(c1.Channel(k), c2.Channel(k), pos - idx as real);
  }

  /** A two-level mask maps onto the two end colours of the ramp. */
  lemma BinaryMaskEnds(colors: seq<Rgb>, g: Byte)
    requires |colors| >= 2 && (g == 0 || g == 255)
    ensures RampColor(colors, g) == colors[0] || RampColor(colors, g) == colors[|colors| - 1]
  {
    RampEnds(colors);
  }

  /** With two colours the ramp is a single blend: white takes the second colour, and any
      other level g blends a fraction g/255 of the way from the first to the second. */
  lemma TwoColourRamp(c0: Rgb, c1: Rgb, g: Byte, k: int)
    requires 0 <= k < 3
    ensures RampColor([c0, c1], g).Channel(k)
      == if g == 255 then c1.Channel(k) else Mix(c0.Channel(k), c1.Channel(k), g as real / 255.0)
  {
    var pos := Position(g, 1);
    assert pos == g as real / 255.0;
    if g == 255 {
      assert pos.Floor == 1;
      BlendSame(c1);
    } else {
      assert pos.Floor == 0;
    }
  }

  /** A larger fraction moves a blend further along the gap, whichever way it points. */
  lemma OffsetMonotone(a: Byte, b: Byte, f1: real, f2: real)
    requires f1 <= f2
    ensures a <= b ==> Offset(a, b, f1) <= Offset(a, b, f2)
    ensures b <= a ==> Offset(a, b, f1) >= Offset(a, b, f2)
  {
    var d := b as real - a as real;
    assert Offset(a, b, f2) - Offset(a, b, f1) == d * (f2 - f1);
    if a <= b {
      assert 0.0 <= d * (f2 - f1);
    } else {
      assert 0.0 <= (-d) * (f2 - f1);
    }
  }

  /** A larger fraction never moves a blend back towards its start. */
  lemma MixMonotone(a: Byte, b: Byte, f1: real, f2: real)
    requires f1 <= f2
    ensures a <= b ==> Mix(a, b, f1) <= Mix(a, b, f2)
    ensures b <= a ==> Mix(a, b, f1) >= Mix(a, b, f2)
  {
    OffsetMonotone(a, b, f1, f2);
    if a <= b {
      ToByteMonotone(a as real + Offset(a, b, f1), a as real + Offset(a, b, f2));
    }
    if b <= a {
      ToByteMonotone(a as real + Offset(a, b, f2), a as real + Offset(a, b, f1));
    }
  }

  /** With a two-colour palette each channel moves monotonically from the first colour to
      the second as the gray level rises: never away from the second colour. */
  lemma RampMonotone(c0: Rgb, c1: Rgb, g1: Byte, g2: Byte, k: int)
    requires 0 <= k < 3 && g1 <= g2
    ensures c0.Channel(k) <= c1.Channel(k) ==>
      RampColor([c0, c1], g1).Channel(k) <= RampColor([c0, c1], g2).Channel(k)
    ensures c1.Channel(k) <= c0.Channel(k) ==>
      RampColor([c0, c1], g1).Channel(k) >= RampColor([c0, c1], g2).Channel(k)
  {
    var a, b := c0.Channel(k), c1.Channel(k);
    var f1, f2 := g1 as real / 255.0, g2 as real / 255.0;
    TwoColourRamp(c0, c1, g1, k);
    TwoColourRamp(c0, c1, g2, k);
    if g2 == 255 {
      if g1 != 255 {
        assert 0.0 <= f1 <= 1.0;
        MixBetween(a, b, f1);
      }
    } else {
      assert f1 <= f2;
      MixMonotone(a, b, f1, f2);
    }
  }
}
