/** Palette colours and the parser that turns a "#rrggbb" string into one. */
module Colors {

  import opened Bytes
  import opened Wrappers

  /** One palette stop. */
  datatype Rgb = Rgb(r: Byte, g: Byte, b: Byte) {
    /** Channel 0, 1 or 2, as the palette mapper indexes a colour array. */
    function Channel(k: int): Byte
      requires 0 <= k < 3
    {
      if k == 0 then r else if k == 1 then g else b
    }
  }

  const Black := Rgb(0, 0, 0)

  /** The value of a hexadecimal digit, either case; None for any other character. */
  function HexDigit(c: char): (d: Option<int>)
    ensures d.Some? ==> 0 <= d.value < 16
  {
    if '0' <= c <= '9' then Some(c as int - '0' as int)
    else if 'a' <= c <= 'f' then Some(c as int - 'a' as int + 10)
    else if 'A' <= c <= 'F' then Some(c as int - 'A' as int + 10)
    else None
  }

  /** The character class [a-f\d] matched case-insensitively. */
  predicate IsHexChar(c: char) {
    ('0' <= c <= '9') || ('a' <= c <= 'f') || ('A' <= c <= 'F')
  }

  /** The pattern ^#?([a-f\d]{2})([a-f\d]{2})([a-f\d]{2})$ with the i flag. */
  predicate MatchesHexColor(s: string) {
    || (|s| == 6 && forall i :: 0 <= i < 6 ==> IsHexChar(s[i]))
    || (|s| == 7 && s[0] == '#' && forall i :: 1 <= i < 7 ==> IsHexChar(s[i]))
  }

  /** The value of the two hexadecimal digits s[i], s[i+1], if both are digits. */
  function HexPair(s: string, i: nat): (v: Option<Byte>)
    requires i + 2 <= |s|
  {
    match (HexDigit(s[i]), HexDigit(s[i + 1]))
    case (Some(hi), Some(lo)) => Some(16 * hi + lo)
    case _ => None
  }

  /** The three channels of a match: an optional leading '#' is dropped, then exactly six
      hexadecimal digits must remain. */
  function ParseHexColor(s: string): Option<Rgb> {
    var body := if |s| > 0 && s[0] == '#' then s[1..] else s;
    if |body| != 6 then None
    else
      match (HexPair(body, 0), HexPair(body, 2), HexPair(body, 4))
      case (Some(r), Some(g), Some(b)) => Some(Rgb(r, g, b))
      case _ => None
  }

  /** The parser: the colour when the string matches the pattern, black otherwise. */
  function HexToRgb(s: string): Rgb {
    match ParseHexColor(s)
    case Some(c) => c
    case None => Black
  }

  function HexChar(d: int, upper: bool): (c: char)
    requires 0 <= d < 16
    ensures IsHexChar(c) && HexDigit(c) == Some(d)
  {
    if d < 10 then ('0' as int + d) as char
    else if upper then ('A' as int + d - 10) as char
    else ('a' as int + d - 10) as char
  }

  function HexByte(v: Byte, upper: bool): string {
    [HexChar(v / 16, upper), HexChar(v % 16, upper)]
  }

  /** A colour written as six hexadecimal digits, with or without a leading '#', in either case. */
  function FormatHex(c: Rgb, hash: bool, upper: bool): string {
    (if hash then "#" else "") + HexByte(c.r, upper) + HexByte(c.g, upper) + HexByte(c.b, upper)
  }

  lemma HexCharIff(c: char)
    ensures IsHexChar(c) <==> HexDigit(c).Some?
  {
  }

  /** The parser accepts exactly the strings the pattern matches. */
  lemma ParseAcceptsExactlyMatches(s: string)
    ensures ParseHexColor(s).Some? <==> MatchesHexColor(s)
  {
    var body := if |s| > 0 && s[0] == '#' then s[1..] else s;
    if |body| == 6 {
      forall i | 0 <= i < 6 ensures IsHexChar(body[i]) <==> HexDigit(body[i]).Some? {
        HexCharIff(body[i]);
      }
      if |s| == 7 {
        assert forall i :: 1 <= i < 7 ==> s[i] == body[i - 1];
      }
    }
  }

  /** Every non-matching string yields black. */
  lemma NonMatchIsBlack(s: string)
    requires !MatchesHexColor(s)
    ensures HexToRgb(s) == Black
  {
    ParseAcceptsExactlyMatches(s);
  }

  /** Formatting any colour and parsing it back gives the colour, with or without '#' and
      in either case. */
  lemma FormatThenParse(c: Rgb, hash: bool, upper: bool)
    ensures MatchesHexColor(FormatHex(c, hash, upper))
    ensures HexToRgb(FormatHex(c, hash, upper)) == c
  {
    var s := FormatHex(c, hash, upper);
    var body := HexByte(c.r, upper) + HexByte(c.g, upper) + HexByte(c.b, upper);
    assert s == (if hash then "#" else "") + body;
    assert (if |s| > 0 && s[0] == '#' then s[1..] else s) == body;
    assert HexPair(body, 0) == Some(c.r);
    assert HexPair(body, 2) == Some(c.g);
    assert HexPair(body, 4) == Some(c.b);
    ParseAcceptsExactlyMatches(s);
  }
}
