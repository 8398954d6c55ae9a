/** Byte values and the store rule of a clamped byte array, shared by every stage of the
    pipeline. */
module Bytes {

  /** One 8-bit sample, as held by a clamped byte array. */
  type Byte = x: int | 0 <= x <= 255

  /** The two values a binary dither mask may hold. */
  predicate IsBinary(v: real) {
    v == 0.0 || v == 255.0
  }

  /** Storing a number into a clamped byte array: clamp to [0, 255], then round to the
      nearest integer, ties to even. */
  function ToByte(v: real): (b: Byte)
    ensures v <= 0.0 ==> b == 0
    ensures v >= 255.0 ==> b == 255
    ensures 0.0 <= v <= 255.0 ==> v - 0.5 <= b as real <= v + 0.5
  {
    if v <= 0.0 then 0
    else if v >= 255.0 then 255
    else
      var f := v.Floor;
      if f as real + 0.5 < v then f + 1
      else if v < f as real + 0.5 then f
      else if f % 2 == 0 then f else f + 1
  }

  /** An integral value in range is stored unchanged. */
  lemma ToByteIntegral(k: int)
    requires 0 <= k <= 255
    ensures ToByte(k as real) == k
  {
    if 0 < k < 255 {
      assert (k as real).Floor == k;
    }
  }

  /** Storing is monotone: a larger number never stores as a smaller byte. */
  lemma ToByteMonotone(u: real, v: real)
    requires u <= v
    ensures ToByte(u) <= ToByte(v)
  {
    if 0.0 < u && v < 255.0 {
      var fu, fv := u.Floor, v.Floor;
      assert fu <= fv;
      if fu == fv {
      } else {
        assert fu + 1 <= fv;
      }
    }
  }

  /** A number between two bytes is stored as a byte between them. */
  lemma ToByteBetween(lo: int, v: real, hi: int)
    requires 0 <= lo <= 255 && 0 <= hi <= 255
    requires lo as real <= v <= hi as real
    ensures lo <= ToByte(v) <= hi
  {
    ToByteMonotone(lo as real, v);
    ToByteMonotone(v, hi as real);
    ToByteIntegral(lo);
    ToByteIntegral(hi);
  }
}
