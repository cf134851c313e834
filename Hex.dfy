/** Hexadecimal renderings used by the three platforms: the `%02X` format of
    one byte (Swift's `String(format:)`, Java's `String.format`), and
    JavaScript's `n.toString(16).padStart(2, '0')` followed by
    `toUpperCase()`. */
module Hex {
  import opened Text
  import opened Results

  type Byte = x: int | 0 <= x < 256

  predicate IsHexDigit(c: char) {
    '0' <= c <= '9' || 'A' <= c <= 'F' || 'a' <= c <= 'f'
  }

  predicate IsUpperHexDigit(c: char) {
    '0' <= c <= '9' || 'A' <= c <= 'F'
  }

  /** The value of one hex digit, either case. */
  function DigitValue(c: char): (v: nat)
    requires IsHexDigit(c)
    ensures v < 16
  {
    if '0' <= c <= '9' then c as int - '0' as int
    else if 'A' <= c <= 'F' then c as int - 'A' as int + 10
    else c as int - 'a' as int + 10
  }

  /** The upper-case digit of a value below 16. */
  function UpperDigit(d: nat): (c: char)
    requires d < 16
    ensures IsUpperHexDigit(c) && DigitValue(c) == d
  {
    if d < 10 then (d + '0' as int) as char else (d - 10 + 'A' as int) as char
  }

  /** The lower-case digit of a value below 16, as `Number.prototype.toString(16)` writes it. */
  function LowerDigit(d: nat): (c: char)
    requires d < 16
    ensures IsHexDigit(c) && DigitValue(c) == d
  {
    if d < 10 then (d + '0' as int) as char else (d - 10 + 'a' as int) as char
  }

  // ---------------------------------------------------------------------
  // `%02X` of a byte, and of a byte sequence joined with no separator.

  /** `String(format: "%02X", b)`: exactly two upper-case digits whose value is `b`. */
  function ByteHex(b: Byte): (r: String)
    ensures |r| == 2 && IsUpperHexDigit(r[0]) && IsUpperHexDigit(r[1])
    ensures 16 * DigitValue(r[0]) + DigitValue(r[1]) == b
  {
    [UpperDigit(b / 16), UpperDigit(b % 16)]
  }

  /** `bytes.map { String(format: "%02X", $0) }.joined()`. */
  function HexOfBytes(bs: seq<Byte>): (r: String)
    ensures |r| == 2 * |bs|
  {
    if bs == [] then [] else ByteHex(bs[0]) + HexOfBytes(bs[1..])
  }

  /** Byte `i` is rendered at positions `2i` and `2i + 1`: the encoding keeps
      the order of the bytes. */
  lemma {:induction false} HexOfBytesAt(bs: seq<Byte>, i: nat)
    requires i < |bs|
    ensures HexOfBytes(bs)[2 * i..2 * i + 2] == ByteHex(bs[i])
  {
    if i > 0 {
      HexOfBytesAt(bs[1..], i - 1);
      assert HexOfBytes(bs)[2 * i..2 * i + 2] == HexOfBytes(bs[1..])[2 * (i - 1)..2 * (i - 1) + 2];
    }
  }

  /** Every character of the encoding is an upper-case hex digit. */
  lemma {:induction false} HexOfBytesDigits(bs: seq<Byte>)
    ensures forall k :: 0 <= k < |HexOfBytes(bs)| ==> IsUpperHexDigit(HexOfBytes(bs)[k])
  {
    if bs != [] {
      HexOfBytesDigits(bs[1..]);
      var r := HexOfBytes(bs);
      forall k | 0 <= k < |r| ensures IsUpperHexDigit(r[k]) {
        if k >= 2 { assert r[k] == HexOfBytes(bs[1..])[k - 2]; }
      }
    }
  }

  /** Encoding a concatenation is concatenating the encodings: the hex of a
      buffer built from several chunks is the hex of each chunk in turn. */
  lemma {:induction false} HexOfBytesAppend(a: seq<Byte>, b: seq<Byte>)
    ensures HexOfBytes(a + b) == HexOfBytes(a) + HexOfBytes(b)
  {
    if a == [] {
      assert a + b == b;
    } else {
      assert (a + b)[0] == a[0];
      assert (a + b)[1..] == a[1..] + b;
      HexOfBytesAppend(a[1..], b);
    }
  }

  /** Reads back a string of digit pairs; `None` for an odd length or a
      character that is not a hex digit. */
  function ParseHexBytes(s: String): Option<seq<Byte>>
    decreases |s|
  {
    if s == [] then Some([])
    else if |s| < 2 || !IsHexDigit(s[0]) || !IsHexDigit(s[1]) then None
    else
      match ParseHexBytes(s[2..])
      case None => None
      case Some(rest) => Some([16 * DigitValue(s[0]) + DigitValue(s[1])] + rest)
  }

  /** The encoding loses nothing: parsing it back gives the bytes. */
  lemma {:induction false} HexOfBytesRoundTrip(bs: seq<Byte>)
    ensures ParseHexBytes(HexOfBytes(bs)) == Some(bs)
  {
    if bs != [] {
      var r := HexOfBytes(bs);
      assert r[2..] == HexOfBytes(bs[1..]);
      HexOfBytesRoundTrip(bs[1..]);
      assert [bs[0]] + bs[1..] == bs;
    }
  }

  // ---------------------------------------------------------------------
  // JavaScript: `n.toString(16)`, `padStart(2, '0')`, `toUpperCase()`.

  /** `n.toString(16)` for a non-negative integer: lower-case digits, no
      leading zeros, "0" for zero. */
  function ToStringRadix16(n: nat): (r: String)
    ensures |r| >= 1
    ensures forall k :: 0 <= k < |r| ==> IsHexDigit(r[k])
  {
    if n < 16 then [LowerDigit(n)] else ToStringRadix16(n / 16) + [LowerDigit(n % 16)]
  }

  /** `s.padStart(2, '0')`. */
  function PadStart2(s: String): String {
    if |s| < 2 then seq(2 - |s|, _ => '0') + s else s
  }

  /** `toUpperCase()` restricted to the characters it changes among hex
      digits and white space: on such strings it only maps `a`-`f` to
      `A`-`F`, and every other character below U+0080 other than `a`-`z`
      is left alone. */
  function AsciiUpper(s: String): String {
    if s == [] then []
    else [if 'a' <= s[0] <= 'z' then (s[0] as int - 32) as char else s[0]] + AsciiUpper(s[1..])
  }

  lemma {:induction false} AsciiUpperAt(s: String, k: nat)
    requires k < |s|
    ensures |AsciiUpper(s)| == |s|
    ensures AsciiUpper(s)[k] == if 'a' <= s[k] <= 'z' then (s[k] as int - 32) as char else s[k]
  {
    if k > 0 { AsciiUpperAt(s[1..], k - 1); } else if |s| > 1 { AsciiUpperAt(s[1..], 0); }
  }

  lemma {:induction false} AsciiUpperLength(s: String)
    ensures |AsciiUpper(s)| == |s|
  {
    if s != [] { AsciiUpperLength(s[1..]); }
  }

  lemma {:induction false} AsciiUpperAppend(a: String, b: String)
    ensures AsciiUpper(a + b) == AsciiUpper(a) + AsciiUpper(b)
  {
    if a == [] {
      assert a + b == b;
    } else {
      assert (a + b)[0] == a[0];
      assert (a + b)[1..] == a[1..] + b;
      AsciiUpperAppend(a[1..], b);
    }
  }

  /** The JavaScript rendering of one code: at least two upper-case digits
      whose value is the code. */
  function JsCodeHex(n: nat): String {
    AsciiUpper(PadStart2(ToStringRadix16(n)))
  }

  /** For a code below 256 the JavaScript rendering is exactly `%02X`. */
  lemma JsCodeHexOfByte(n: nat)
    requires n < 256
    ensures JsCodeHex(n) == ByteHex(n)
  {
    if n < 16 {
      assert PadStart2(ToStringRadix16(n)) == ['0', LowerDigit(n)];
      assert JsCodeHex(n) == [AsciiUpper(['0'])[0], AsciiUpper([LowerDigit(n)])[0]] by {
        AsciiUpperAppend(['0'], [LowerDigit(n)]);
      }
    } else {
      assert ToStringRadix16(n) == [LowerDigit(n / 16), LowerDigit(n % 16)];
      assert JsCodeHex(n) == [AsciiUpper([LowerDigit(n / 16)])[0], AsciiUpper([LowerDigit(n % 16)])[0]] by {
        AsciiUpperAppend([LowerDigit(n / 16)], [LowerDigit(n % 16)]);
      }
    }
  }

  /** The rendering of a code of 256 or more has more than two digits. */
  lemma {:induction false} JsCodeHexWide(n: nat)
    requires n >= 256
    ensures |JsCodeHex(n)| > 2
  {
    AsciiUpperLength(PadStart2(ToStringRadix16(n)));
    assert |ToStringRadix16(n)| == |ToStringRadix16(n / 16)| + 1;
    assert |ToStringRadix16(n / 16)| == |ToStringRadix16(n / 256)| + 1;
  }
}
