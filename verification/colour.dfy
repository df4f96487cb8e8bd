/** Hex colour handling of the overlay step: the 3-digit shorthand expansion
    that `drawOverlay` writes back into `overlayColor`, and the decoding of
    `#rrggbb` into red, green and blue with `sscanf("#%2x%2x%2x")`. */
module Colour {
  import Ascii

  /** A decoded colour; each channel is the value of two hex digits. */
  datatype Rgb = Rgb(red: nat, green: nat, blue: nat)

  predicate InRange(c: Rgb) {
    c.red < 256 && c.green < 256 && c.blue < 256
  }

  predicate IsHexDigit(ch: char) {
    '0' <= ch <= '9' || 'a' <= ch <= 'f' || 'A' <= ch <= 'F'
  }

  /** Digit or lower-case letter: the spelling `Format` produces. */
  predicate IsLowerHexDigit(ch: char) {
    '0' <= ch <= '9' || 'a' <= ch <= 'f'
  }

  /** The value of one hex digit; `%x` accepts both letter cases. */
  function HexValue(ch: char): (v: nat)
    requires IsHexDigit(ch)
    ensures v < 16
  {
    if '0' <= ch <= '9' then ch as int - '0' as int
    else if 'a' <= ch <= 'f' then ch as int - 'a' as int + 10
    else ch as int - 'A' as int + 10
  }

  /** The lower-case hex digit of a value below 16. */
  function HexDigit(n: nat): (ch: char)
    requires n < 16
    ensures IsLowerHexDigit(ch) && HexValue(ch) == n
  {
    if n < 10 then ('0' as int + n) as char else ('a' as int + n - 10) as char
  }

  /** `#` followed by exactly six hex digits: what `sscanf("#%2x%2x%2x")` reads in full. */
  predicate IsLongHex(s: string) {
    |s| == 7 && s[0] == '#' && forall i :: 1 <= i < 7 ==> IsHexDigit(s[i])
  }

  /** `#` followed by exactly three hex digits: the shorthand form. */
  predicate IsShortHex(s: string) {
    |s| == 4 && s[0] == '#' && forall i :: 1 <= i < 4 ==> IsHexDigit(s[i])
  }

  /** `str_replace('#', '', s)`: every `#` removed, the rest kept in order. */
  function StripHashes(s: string): (r: string)
    ensures |r| <= |s|
    ensures '#' !in r
    ensures '#' !in s ==> r == s
  {
    if s == [] then []
    else if s[0] == '#' then StripHashes(s[1..])
    else [s[0]] + StripHashes(s[1..])
  }

  /** Every character written twice (`str_repeat($c, 2)` for each `$c`). */
  function Doubled(s: string): (r: string)
    ensures |r| == 2 * |s|
    ensures forall i :: 0 <= i < |s| ==> r[2 * i] == s[i] && r[2 * i + 1] == s[i]
  {
    if s == [] then [] else [s[0], s[0]] + Doubled(s[1..])
  }

  /** The rewrite `drawOverlay` applies to `overlayColor` (src/OpenGraphImage.php:433-435).
      Only a string of length 4 is touched: all `#` characters are removed, the
      characters that remain are paired with the repeat counts [2, 2, 2] (so at most
      three of them are kept, `array_map` giving a fourth a null count, which PHP
      coerces to 0), each is doubled and a single `#` is put in front. */
  function Expand(s: string): (r: string)
    ensures |r| != 4
    ensures |s| != 4 ==> r == s
    ensures |s| == 4 ==> 0 < |r| <= 7 && r[0] == '#'
  {
    if |s| == 4 then
      var digits := StripHashes(s);
      "#" + Doubled(if |digits| <= 3 then digits else digits[..3])
    else s
  }

  /** `sscanf($color, "#%2x%2x%2x")` on a well-formed colour. */
  function Parse(s: string): (c: Rgb)
    requires IsLongHex(s)
    ensures InRange(c)
  {
    Rgb(16 * HexValue(s[1]) + HexValue(s[2]),
        16 * HexValue(s[3]) + HexValue(s[4]),
        16 * HexValue(s[5]) + HexValue(s[6]))
  }

  /** The canonical lower-case `#rrggbb` spelling of a colour: the inverse of `Parse`. */
  function Format(c: Rgb): (s: string)
    requires InRange(c)
    ensures IsLongHex(s)
  {
    ['#', HexDigit(c.red / 16), HexDigit(c.red % 16),
     HexDigit(c.green / 16), HexDigit(c.green % 16),
     HexDigit(c.blue / 16), HexDigit(c.blue % 16)]
  }

  lemma HexDigitOfValue(ch: char)
    requires IsLowerHexDigit(ch)
    ensures HexDigit(HexValue(ch)) == ch
  {
  }

  /** Decoding the canonical spelling gives back the colour. */
  lemma ParseFormat(c: Rgb)
    requires InRange(c)
    ensures Parse(Format(c)) == c
  {
  }

  /** Two lower-case digits read as one byte are spelled back the same way. */
  lemma PairRoundTrip(hi: char, lo: char)
    requires IsLowerHexDigit(hi) && IsLowerHexDigit(lo)
    ensures var v := 16 * HexValue(hi) + HexValue(lo);
      HexDigit(v / 16) == hi && HexDigit(v % 16) == lo
  {
    var v := 16 * HexValue(hi) + HexValue(lo);
    assert v / 16 == HexValue(hi) && v % 16 == HexValue(lo);
    HexDigitOfValue(hi);
    HexDigitOfValue(lo);
  }

  /** A colour spelled with digits and lower-case letters is its own canonical form. */
  lemma FormatParse(s: string)
    requires IsLongHex(s)
    requires forall i :: 1 <= i < 7 ==> IsLowerHexDigit(s[i])
    ensures Format(Parse(s)) == s
  {
    PairRoundTrip(s[1], s[2]);
    PairRoundTrip(s[3], s[4]);
    PairRoundTrip(s[5], s[6]);
    var f := Format(Parse(s));
    assert f[0] == s[0] && f[1] == s[1] && f[2] == s[2];
    assert f[3] == s[3] && f[4] == s[4];
    assert f[5] == s[5] && f[6] == s[6];
  }

  /** `%x` reads a letter digit the same in either case. */
  lemma HexValueIgnoresCase(x: char, y: char)
    requires IsHexDigit(x) && IsHexDigit(y) && Ascii.SameIgnoringCase(x, y)
    ensures HexValue(x) == HexValue(y)
  {
  }

  /** Two spellings of a colour that differ only in the case of their letter
      digits decode to the same colour; with `FormatParse` this fixes the value
      of every spelling (`#FFFFFF` is `#ffffff`, white). */
  lemma ParseIgnoresCase(s: string, t: string)
    requires IsLongHex(s) && IsLongHex(t)
    requires forall i :: 1 <= i < 7 ==> Ascii.SameIgnoringCase(s[i], t[i])
    ensures Parse(s) == Parse(t)
  {
    HexValueIgnoresCase(s[1], t[1]);
    HexValueIgnoresCase(s[2], t[2]);
    HexValueIgnoresCase(s[3], t[3]);
    HexValueIgnoresCase(s[4], t[4]);
    HexValueIgnoresCase(s[5], t[5]);
    HexValueIgnoresCase(s[6], t[6]);
  }

  /** Removing the `#` of a shorthand leaves its three digits. */
  lemma StripShort(s: string)
    requires IsShortHex(s)
    ensures StripHashes(s) == s[1..]
  {
    assert s == ['#'] + s[1..];
    assert '#' !in s[1..] by {
      forall i | 0 <= i < 3 ensures s[1..][i] != '#' {
        assert IsHexDigit(s[i + 1]);
      }
    }
  }

  lemma DoubledThree(t: string)
    requires |t| == 3
    ensures Doubled(t) == [t[0], t[0], t[1], t[1], t[2], t[2]]
  {
    var d := Doubled(t);
    assert d[0] == t[0] && d[1] == t[0];
    assert d[2] == t[1] && d[3] == t[1];
    assert d[4] == t[2] && d[5] == t[2];
  }

  /** `#rgb` is rewritten to `#rrggbb`, which is well formed. */
  lemma ExpandShort(s: string)
    requires IsShortHex(s)
    ensures Expand(s) == ['#', s[1], s[1], s[2], s[2], s[3], s[3]]
    ensures IsLongHex(Expand(s))
  {
    var digits := s[1..];
    StripShort(s);
    assert |digits| == 3;
    assert Expand(s) == "#" + Doubled(digits);
    DoubledThree(digits);
    var e := ['#', s[1], s[1], s[2], s[2], s[3], s[3]];
    assert "#" + Doubled(digits) == e;
    assert IsHexDigit(s[1]) && IsHexDigit(s[2]) && IsHexDigit(s[3]);
    assert forall i :: 1 <= i < 7 ==> e[i] == s[(i + 1) / 2];
  }

  /** The shorthand decodes like its doubled long form: each channel is its digit
      times 17 (`#abc` and `#aabbcc` are the same colour). */
  lemma ParseShort(s: string)
    requires IsShortHex(s)
    ensures IsLongHex(Expand(s))
    ensures Parse(Expand(s)) == Rgb(17 * HexValue(s[1]), 17 * HexValue(s[2]), 17 * HexValue(s[3]))
  {
    ExpandShort(s);
  }

  /** Rewriting the colour a second time changes nothing, so repeated renders
      leave `overlayColor` as the first one left it. */
  lemma ExpandIdempotent(s: string)
    ensures Expand(Expand(s)) == Expand(s)
  {
  }
}
