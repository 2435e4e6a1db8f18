/** The `Helper::hex2rgb` trait method: a CSS-style hex colour string to an
    RGB triple. The method runs in PHP's coercive (non-strict) typing mode, so
    every fractional length or count it computes is truncated to an integer
    and `hexdec` skips characters that are not hex digits. This module works out
    those truncations with integer arithmetic. */
module Helper {

  datatype Rgb = Rgb(r: int, g: int, b: int)

  predicate IsHexDigit(c: char) {
    '0' <= c <= '9' || 'a' <= c <= 'f' || 'A' <= c <= 'F'
  }

  function DigitValue(c: char): (v: nat)
    requires IsHexDigit(c)
    ensures v < 16
  {
    if '0' <= c <= '9' then c as int - '0' as int
    else if 'a' <= c <= 'f' then c as int - 'a' as int + 10
    else c as int - 'A' as int + 10
  }

  function Pow16(n: nat): (p: nat)
    ensures p >= 1
  {
    if n == 0 then 1 else 16 * Pow16(n - 1)
  }

  /** PHP `hexdec`: the value of the hex digits of `s`, read most significant
      first; any other character is ignored. */
  function HexDec(s: string): (v: nat)
    ensures v < Pow16(|s|)
  {
    if s == [] then 0
    else
      var init := HexDec(s[..|s| - 1]);
      var last := s[|s| - 1];
      if IsHexDigit(last) then init * 16 + DigitValue(last) else init
  }

  /** `str_replace('#', '', s)`. */
  function StripHash(s: string): (t: string)
    ensures '#' !in t
    ensures |t| <= |s|
  {
    if s == [] then []
    else if s[0] == '#' then StripHash(s[1..])
    else [s[0]] + StripHash(s[1..])
  }

  /** `substr(s, start, len)` for a start inside the string and len >= 0. */
  function Substr(s: string, start: nat, len: nat): (t: string)
    requires start <= |s|
    ensures |t| <= len
    ensures t == s[start..if start + len <= |s| then start + len else |s|]
  {
    s[start..if start + len <= |s| then start + len else |s|]
  }

  /** `str_repeat(s, n)`. */
  function Repeat(s: string, n: nat): (t: string)
    ensures |t| == |s| * n
  {
    if n == 0 then [] else s + Repeat(s, n - 1)
  }

  /** `hex2rgb`: after stripping every `#`, a string of length m is cut into
      three parts of length m/3 starting at 0, m/3 and 2m/3, each part is
      repeated 6/m times and read with `hexdec`. Lengths 3 and 6 give the
      shorthand and the full form; for the empty string PHP 7 reads three
      empty parts (a division by zero warning), giving black. */
  function Hex2Rgb(color: string): (c: Rgb)
    ensures 0 <= c.r <= 255 && 0 <= c.g <= 255 && 0 <= c.b <= 255
  {
    ParseHex(StripHash(color))
  }

  /** The parsing half of `hex2rgb`, applied once the `#`s are gone. */
  function ParseHex(hex: string): (c: Rgb)
    ensures 0 <= c.r <= 255 && 0 <= c.g <= 255 && 0 <= c.b <= 255
  {
    var m := |hex|;
    if m == 0 then Rgb(0, 0, 0)
    else
      var part := m / 3;
      var times := 6 / m;
      PartWidthBound(m);
      Rgb(Channel(hex, 0, part, times),
          Channel(hex, part, part, times),
          Channel(hex, 2 * m / 3, part, times))
  }

  /** One channel of `hex2rgb`: `hexdec(str_repeat(substr(hex, start, part), times))`. */
  function Channel(hex: string, start: nat, part: nat, times: nat): (v: nat)
    requires start <= |hex|
    requires part * times <= 2
    ensures v <= 255
  {
    var digits := Repeat(Substr(hex, start, part), times);
    assert |digits| <= part * times by {
      assert |Substr(hex, start, part)| <= part;
    }
    HexDecBound(digits);
    HexDec(digits)
  }

  lemma PartWidthBound(m: nat)
    requires m >= 1
    ensures (m / 3) * (6 / m) <= 2
  {
    if m < 3 {
    } else if m == 3 {
    } else if m == 4 {
    } else if m == 5 {
    } else if m == 6 {
    } else {
      assert 6 / m == 0;
    }
  }

  lemma HexDecBound(s: string)
    requires |s| <= 2
    ensures HexDec(s) <= 255
  {
    if |s| == 2 {
      assert Pow16(2) == 256;
    }
  }

  /** Stripping distributes over concatenation. */
  lemma {:induction false} StripHashConcat(s: string, t: string)
    ensures StripHash(s + t) == StripHash(s) + StripHash(t)
  {
    if s == [] {
      assert s + t == t;
    } else {
      assert (s + t)[1..] == s[1..] + t;
      StripHashConcat(s[1..], t);
    }
  }

  lemma {:induction false} StripHashNoHash(s: string)
    requires '#' !in s
    ensures StripHash(s) == s
  {
    if s != [] {
      assert s[0] != '#';
      assert '#' !in s[1..] by {
        forall i | 0 <= i < |s[1..]| ensures s[1..][i] != '#' {
          assert s[1..][i] == s[i + 1];
        }
      }
      StripHashNoHash(s[1..]);
      assert s == [s[0]] + s[1..];
    }
  }

  /** Every `#` is removed before parsing, wherever it stands: inserting one
      anywhere leaves the triple unchanged. */
  lemma Hex2RgbIgnoresHash(s: string, i: nat)
    requires i <= |s|
    ensures Hex2Rgb(s[..i] + "#" + s[i..]) == Hex2Rgb(s)
  {
    StripHashConcat(s[..i] + "#", s[i..]);
    StripHashConcat(s[..i], "#");
    StripHashConcat(s[..i], s[i..]);
    assert s[..i] + s[i..] == s;
    assert StripHash("#") == [];
    assert StripHash(s[..i] + "#" + s[i..]) == StripHash(s);
  }

  lemma HexDecTwo(a: char, b: char)
    requires IsHexDigit(a) && IsHexDigit(b)
    ensures HexDec([a, b]) == 16 * DigitValue(a) + DigitValue(b)
  {
    assert [a, b][..1] == [a];
    assert [a][..0] == [];
  }

  /** The full form: channel k is the value of hex digits 2k and 2k+1. */
  lemma Hex2RgbSixDigits(s: string)
    requires |s| == 6
    requires forall i :: 0 <= i < 6 ==> IsHexDigit(s[i])
    ensures Hex2Rgb(s) == Rgb(16 * DigitValue(s[0]) + DigitValue(s[1]),
                              16 * DigitValue(s[2]) + DigitValue(s[3]),
                              16 * DigitValue(s[4]) + DigitValue(s[5]))
  {
    assert '#' !in s by {
      forall i | 0 <= i < |s| ensures s[i] != '#' { assert IsHexDigit(s[i]); }
    }
    StripHashNoHash(s);
    assert |s| / 3 == 2 && 6 / |s| == 1 && 2 * |s| / 3 == 4;
    assert Repeat(s[0..2], 1) == s[0..2] == [s[0], s[1]];
    assert Repeat(s[2..4], 1) == s[2..4] == [s[2], s[3]];
    assert Repeat(s[4..6], 1) == s[4..6] == [s[4], s[5]];
    HexDecTwo(s[0], s[1]);
    HexDecTwo(s[2], s[3]);
    HexDecTwo(s[4], s[5]);
  }

  /** The shorthand: each digit is doubled, so channel k is 17 times the
      value of digit k. */
  lemma Hex2RgbThreeDigits(s: string)
    requires |s| == 3
    requires forall i :: 0 <= i < 3 ==> IsHexDigit(s[i])
    ensures Hex2Rgb(s) == Rgb(17 * DigitValue(s[0]), 17 * DigitValue(s[1]), 17 * DigitValue(s[2]))
  {
    assert '#' !in s by {
      forall i | 0 <= i < |s| ensures s[i] != '#' { assert IsHexDigit(s[i]); }
    }
    StripHashNoHash(s);
    assert |s| / 3 == 1 && 6 / |s| == 2 && 2 * |s| / 3 == 2;
    assert Repeat(s[0..1], 2) == s[0..1] + s[0..1];
    assert Repeat(s[1..2], 2) == s[1..2] + s[1..2];
    assert Repeat(s[2..3], 2) == s[2..3] + s[2..3];
    assert Repeat(s[0..1], 2) == [s[0], s[0]];
    assert Repeat(s[1..2], 2) == [s[1], s[1]];
    assert Repeat(s[2..3], 2) == [s[2], s[2]];
    HexDecTwo(s[0], s[0]);
    HexDecTwo(s[1], s[1]);
    HexDecTwo(s[2], s[2]);
  }

  /** The example in the method's comment: `#ff00ff` and `#f0f` are both
      magenta, and the `#` is optional. */
  lemma Hex2RgbDocExample()
    ensures Hex2Rgb("#ff00ff") == Rgb(255, 0, 255)
    ensures Hex2Rgb("#f0f") == Rgb(255, 0, 255)
    ensures Hex2Rgb("ff00ff") == Hex2Rgb("#ff00ff")
  {
    MagentaFull();
    MagentaShort();
  }

  lemma MagentaFull()
    ensures Hex2Rgb("ff00ff") == Rgb(255, 0, 255)
    ensures Hex2Rgb("#ff00ff") == Hex2Rgb("ff00ff")
  {
    Hex2RgbIgnoresHash("ff00ff", 0);
    assert "ff00ff"[..0] + "#" + "ff00ff"[0..] == "#ff00ff";
    assert DigitValue('f') == 15 && DigitValue('0') == 0;
    Hex2RgbSixDigits("ff00ff");
  }

  lemma MagentaShort()
    ensures Hex2Rgb("#f0f") == Rgb(255, 0, 255)
  {
    Hex2RgbIgnoresHash("f0f", 0);
    assert "f0f"[..0] + "#" + "f0f"[0..] == "#f0f";
    assert DigitValue('f') == 15 && DigitValue('0') == 0;
    Hex2RgbThreeDigits("f0f");
  }
}
