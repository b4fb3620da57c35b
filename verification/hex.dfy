/** Rendering a colour as "#rrggbb", as `"#{:02x}{:02x}{:02x}".format(int(r), int(g), int(b))`. */
module Hex {
  import opened Base
  import opened Colors

  const Digits: string := "0123456789abcdef"

  /** The lower-case hexadecimal digit of `d`. */
  function HexDigit(d: nat): (c: char)
    requires d < 16
    ensures c in Digits
  {
    Digits[d]
  }

  /** The value of a hexadecimal digit character (0 for any other character). */
  function DigitValue(c: char): (d: nat)
    ensures d < 16
  {
    if '0' <= c <= '9' then (c - '0') as nat
    else if 'a' <= c <= 'f' then (c - 'a') as nat + 10
    else 0
  }

  lemma DigitRoundTrip(d: nat)
    requires d < 16
    ensures DigitValue(HexDigit(d)) == d
  {
  }

  /** `format(n, 'x')` for a non-negative `n`: hexadecimal without leading zeros. */
  function ToHex(n: nat): (s: string)
    ensures |s| >= 1
    ensures forall i :: 0 <= i < |s| ==> s[i] in Digits
    ensures n < 16 <==> |s| == 1
  {
    if n < 16 then [HexDigit(n)] else ToHex(n / 16) + [HexDigit(n % 16)]
  }

  /** Reads a string of hexadecimal digits back as a number. */
  function ParseHex(s: string): nat {
    if |s| == 0 then 0 else ParseHex(s[..|s| - 1]) * 16 + DigitValue(s[|s| - 1])
  }

  /** `format(n, '02x')`: at least two digits, a minus sign before negatives. */
  function Hex02(n: int): (s: string)
    ensures |s| >= 2
    ensures 0 <= n < 256 <==> |s| == 2 && s[0] != '-'
  {
    if n < 0 then "-" + ToHex(-n)
    else if n < 16 then "0" + ToHex(n)
    else ToHex(n)
  }

  /** The hex colour of an averaged colour; each channel is truncated, not rounded. */
  function RgbToHex(c: Rgb): (s: string)
    ensures |s| >= 7 && s[0] == '#'
  {
    "#" + Hex02(Trunc(c.r)) + Hex02(Trunc(c.g)) + Hex02(Trunc(c.b))
  }

  /** Hexadecimal rendering and reading are inverse on natural numbers. */
  lemma {:induction false} HexRoundTrip(n: nat)
    ensures ParseHex(ToHex(n)) == n
  {
    if n >= 16 {
      HexRoundTrip(n / 16);
      var s := ToHex(n);
      assert s[..|s| - 1] == ToHex(n / 16);
      DigitRoundTrip(n % 16);
    } else {
      DigitRoundTrip(n);
    }
  }

  /** For a channel value in a byte's range, the two digits are its high and low nibble. */
  lemma ByteDigits(n: nat)
    requires n < 256
    ensures Hex02(n) == [HexDigit(n / 16), HexDigit(n % 16)]
  {
    if n >= 16 {
      assert n / 16 < 16;
      assert ToHex(n / 16) == [HexDigit(n / 16)];
      assert ToHex(n) == ToHex(n / 16) + [HexDigit(n % 16)];
    } else {
      assert n / 16 == 0 && n % 16 == n;
      assert HexDigit(0) == '0';
    }
  }

  /** The rendering of a colour whose channels truncate to the bytes `r`, `g`, `b`. */
  lemma RenderBytes(c: Rgb, r: nat, g: nat, b: nat)
    requires r < 256 && g < 256 && b < 256
    requires Trunc(c.r) == r && Trunc(c.g) == g && Trunc(c.b) == b
    ensures RgbToHex(c) == "#" + [HexDigit(r / 16), HexDigit(r % 16)] + [HexDigit(g / 16), HexDigit(g % 16)]
                               + [HexDigit(b / 16), HexDigit(b % 16)]
  {
    ByteDigits(r);
    ByteDigits(g);
    ByteDigits(b);
  }

  /** A two-digit rendering reads back to the value it came from. */
  lemma Hex02RoundTrip(n: nat)
    requires n < 256
    ensures ParseHex(Hex02(n)) == n
  {
    ByteDigits(n);
    ParseTwo(HexDigit(n / 16), HexDigit(n % 16));
    DigitRoundTrip(n / 16);
    DigitRoundTrip(n % 16);
  }

  lemma ParseTwo(a: char, b: char)
    ensures ParseHex([a, b]) == DigitValue(a) * 16 + DigitValue(b)
  {
    assert [a, b][..1] == [a];
    assert [a][..0] == [];
    assert ParseHex([a]) == ParseHex([]) * 16 + DigitValue(a);
    assert ParseHex([a, b]) == ParseHex([a]) * 16 + DigitValue(b);
  }

  /** Splits a 7-character "#rrggbb" back into its three channels. */
  function ParseColor(s: string): (int, int, int)
    requires |s| == 7
  {
    (ParseHex(s[1..3]), ParseHex(s[3..5]), ParseHex(s[5..7]))
  }

  /**
   * For channels in [0, 256) the rendering is '#' and six lower-case hex digits,
   * and reading it back yields the truncated channels.
   */
  lemma ColorRoundTrip(c: Rgb)
    requires 0.0 <= c.r < 256.0 && 0.0 <= c.g < 256.0 && 0.0 <= c.b < 256.0
    ensures |RgbToHex(c)| == 7
    ensures forall i :: 1 <= i < 7 ==> RgbToHex(c)[i] in Digits
    ensures ParseColor(RgbToHex(c)) == (Trunc(c.r), Trunc(c.g), Trunc(c.b))
  {
    var r, g, b := Trunc(c.r), Trunc(c.g), Trunc(c.b);
    ByteDigits(r);
    ByteDigits(g);
    ByteDigits(b);
    var s := RgbToHex(c);
    var hr, hg, hb := Hex02(r), Hex02(g), Hex02(b);
    assert s == ['#', hr[0], hr[1], hg[0], hg[1], hb[0], hb[1]];
    assert s[1..3] == hr;
    assert s[3..5] == hg;
    assert s[5..7] == hb;
    Hex02RoundTrip(r);
    Hex02RoundTrip(g);
    Hex02RoundTrip(b);
  }

  /** (255, 0, 127) renders as "#ff007f". */
  lemma ExampleMixed()
    ensures RgbToHex(Rgb(255.0, 0.0, 127.0)) == "#ff007f"
  {
    RenderBytes(Rgb(255.0, 0.0, 127.0), 255, 0, 127);
    assert HexDigit(15) == 'f' && HexDigit(0) == '0' && HexDigit(7) == '7';
  }

  /** Black renders as "#000000". */
  lemma ExampleBlack()
    ensures RgbToHex(Black) == "#000000"
  {
    RenderBytes(Black, 0, 0, 0);
    assert HexDigit(0) == '0';
  }

  /** Truncation, not rounding: 127.9 renders like 127. */
  lemma ExampleTruncates()
    ensures RgbToHex(Rgb(127.9, 15.5, 0.99)) == "#7f0f00"
  {
    assert Trunc(127.9) == 127 && Trunc(15.5) == 15 && Trunc(0.99) == 0;
    RenderBytes(Rgb(127.9, 15.5, 0.99), 127, 15, 0);
    assert HexDigit(7) == '7' && HexDigit(15) == 'f' && HexDigit(0) == '0';
  }
}
