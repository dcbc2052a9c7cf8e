/** Java's fixed-width integers and the text conversions the tools take from the Java library
    (`Integer.parseInt(s, 16)`, `String.valueOf(int)`, `String.format("%0wX", v)`) and from
    Keyple's `HexUtil.toHex`. Only their observable results are modelled. */
module JavaText {
  import opened Wrappers

  type JByte = x: int | -0x80 <= x < 0x80
  type JShort = x: int | -0x8000 <= x < 0x8000
  type JInt = x: int | -0x8000_0000 <= x < 0x8000_0000

  /** Two's-complement reading of a byte as an unsigned value, as `%X` and `HexUtil` print it. */
  function UByte(b: JByte): (r: nat)
    ensures r < 0x100 && (r - b) % 0x100 == 0
  {
    if b < 0 then b + 0x100 else b
  }

  function UShort(s: JShort): (r: nat)
    ensures r < 0x1_0000 && (r - s) % 0x1_0000 == 0
  {
    if s < 0 then s + 0x1_0000 else s
  }

  function UInt(i: JInt): (r: nat)
    ensures r < 0x1_0000_0000 && (r - i) % 0x1_0000_0000 == 0
  {
    if i < 0 then i + 0x1_0000_0000 else i
  }

  /** The `(byte)` cast: keeps the low eight bits, read as a signed value. */
  function ToJByte(x: int): (r: JByte)
    ensures (r - x) % 0x100 == 0
    ensures -0x80 <= x < 0x80 ==> r == x
  {
    var m := x % 0x100;
    if m < 0x80 then m else m - 0x100
  }

  function Pow16(k: nat): (r: nat)
    ensures r >= 1
  {
    if k == 0 then 1 else 16 * Pow16(k - 1)
  }

  // ---------------------------------------------------------------- hexadecimal digits

  predicate IsHexDigit(c: char) {
    ('0' <= c <= '9') || ('a' <= c <= 'f') || ('A' <= c <= 'F')
  }

  predicate AllHex(s: string) {
    forall i :: 0 <= i < |s| ==> IsHexDigit(s[i])
  }

  /** The upper-case digit for `d`, as Java's `%X` and `HexUtil` write it. */
  function HexDigit(d: nat): (c: char)
    requires d < 16
  {
    if d < 10 then (48 + d) as char else (55 + d) as char
  }

  function DigitValue(c: char): (d: nat)
    requires IsHexDigit(c)
    ensures d < 16
  {
    if '0' <= c <= '9' then c as int - 48
    else if 'a' <= c <= 'f' then c as int - 87
    else c as int - 55
  }

  lemma DigitValueOfHexDigit(d: nat)
    requires d < 16
    ensures IsHexDigit(HexDigit(d)) && !('a' <= HexDigit(d) <= 'f')
    ensures DigitValue(HexDigit(d)) == d
  {
  }

  /** The value of a string of hexadecimal digits, most significant first. */
  function HexValue(s: string): nat
    requires AllHex(s)
  {
    if s == [] then 0 else 16 * HexValue(s[..|s| - 1]) + DigitValue(s[|s| - 1])
  }

  /** The shortest upper-case hexadecimal rendering of `n` ("0" for zero). */
  function HexOf(n: nat): (r: string)
    ensures 1 <= |r|
    ensures n < 16 <==> |r| == 1
    decreases n
  {
    if n < 16 then [HexDigit(n)] else HexOf(n / 16) + [HexDigit(n % 16)]
  }

  lemma {:induction false} HexValueOfHexOf(n: nat)
    ensures AllHex(HexOf(n)) && HexValue(HexOf(n)) == n
    decreases n
  {
    var r := HexOf(n);
    if n < 16 {
      assert r[..0] == [];
      DigitValueOfHexDigit(n);
    } else {
      var h := HexOf(n / 16);
      HexValueOfHexOf(n / 16);
      assert AllHex(r) by {
        forall i | 0 <= i < |r| ensures IsHexDigit(r[i]) {
          if i < |h| {
            assert r[i] == h[i];
          }
        }
      }
      assert r[..|r| - 1] == h;
      DigitValueOfHexDigit(n % 16);
    }
  }

  /** The shortest rendering is at most `w` digits long exactly when the value is below 16^w. */
  lemma {:induction false} HexOfLength(n: nat, w: nat)
    ensures |HexOf(n)| <= w <==> (w >= 1 && n < Pow16(w))
    decreases n
  {
    if n >= 16 && w >= 1 {
      HexOfLength(n / 16, w - 1);
      if w == 1 {
        assert Pow16(1) == 16;
      }
    }
    if n < 16 && w >= 1 {
      assert Pow16(w) >= 16 by { PowAtLeast16(w); }
    }
  }

  lemma {:induction false} PowAtLeast16(w: nat)
    requires w >= 1
    ensures Pow16(w) >= 16
  {
    if w > 1 {
      PowAtLeast16(w - 1);
    }
  }

  function Zeros(k: nat): (r: string)
    ensures |r| == k
  {
    if k == 0 then [] else Zeros(k - 1) + ['0']
  }

  lemma {:induction false} ZerosAreZeros(k: nat)
    ensures forall i :: 0 <= i < k ==> Zeros(k)[i] == '0'
  {
    if k > 0 {
      ZerosAreZeros(k - 1);
      assert forall i :: 0 <= i < k - 1 ==> Zeros(k)[i] == Zeros(k - 1)[i];
    }
  }

  lemma {:induction false} HexValueLeadingZeros(k: nat, s: string)
    requires AllHex(s)
    ensures AllHex(Zeros(k) + s) && HexValue(Zeros(k) + s) == HexValue(s)
    decreases |s|, k
  {
    var z := Zeros(k) + s;
    ZerosAreZeros(k);
    assert AllHex(z) by {
      forall i | 0 <= i < |z| ensures IsHexDigit(z[i]) {
        if i < k { assert z[i] == '0'; } else { assert z[i] == s[i - k]; }
      }
    }
    if s == [] {
      assert z == Zeros(k);
      if k > 0 {
        assert z[..|z| - 1] == Zeros(k - 1) + [];
        HexValueLeadingZeros(k - 1, []);
      }
    } else {
      assert z[..|z| - 1] == Zeros(k) + s[..|s| - 1];
      HexValueLeadingZeros(k, s[..|s| - 1]);
    }
  }

  /** Java's `String.format("%0" + width + "X", n)` for a non-negative value: at least
      `width` upper-case digits, zero-filled on the left. */
  function FormatHex(n: nat, width: nat): (r: string)
    ensures |r| == if |HexOf(n)| < width then width else |HexOf(n)|
  {
    var h := HexOf(n);
    if |h| < width then Zeros(width - |h|) + h else h
  }

  /** The digits `%0wX` prints have the printed value. */
  lemma FormatHexValue(n: nat, width: nat)
    ensures AllHex(FormatHex(n, width)) && HexValue(FormatHex(n, width)) == n
  {
    var h := HexOf(n);
    HexValueOfHexOf(n);
    if |h| < width {
      HexValueLeadingZeros(width - |h|, h);
    }
  }

  /** A value below 16^w is printed in exactly `w` digits. */
  lemma FormatHexWidth(n: nat, width: nat)
    requires width >= 1 && n < Pow16(width)
    ensures |FormatHex(n, width)| == width
  {
    HexOfLength(n, width);
  }

  /** `Integer.parseInt(s, 16)` on ASCII text: an optional sign followed by at least one
      hexadecimal digit `0-9`, `a-f` or `A-F`, within the range of a Java `int`; `None` is the
      `NumberFormatException` it throws otherwise. The other Unicode digits Java also accepts
      are not modelled: such a string is `None` here. */
  function ParseHex(s: string): (r: Option<JInt>)
    ensures (|s| > 0 && AllHex(s) && HexValue(s) < 0x8000_0000) ==> r == Some(HexValue(s))
    ensures |s| == 0 ==> r == None
  {
    if |s| == 0 then None
    else if s[0] == '-' || s[0] == '+' then
      var digits := s[1..];
      if |digits| == 0 || !AllHex(digits) then None
      else
        var v: int := if s[0] == '-' then -(HexValue(digits) as int) else HexValue(digits);
        if -0x8000_0000 <= v < 0x8000_0000 then Some(v) else None
    else if !AllHex(s) then None
    else if HexValue(s) < 0x8000_0000 then Some(HexValue(s))
    else None
  }

  /** Anything `%0wX` prints for a value that fits a Java `int` parses back to that value. */
  lemma ParseFormatHex(n: nat, width: nat)
    requires n < 0x8000_0000
    ensures AllHex(FormatHex(n, width)) && HexValue(FormatHex(n, width)) == n
    ensures ParseHex(FormatHex(n, width)) == Some(n)
  {
    var r := FormatHex(n, width);
    FormatHexValue(n, width);
    assert IsHexDigit(r[0]);
  }

  // ---------------------------------------------------------------- HexUtil.toHex

  /** `HexUtil.toHex(byte)`: always two digits. */
  function ToHexByte(b: JByte): (r: string)
    ensures |r| == 2
  {
    HexOfLength(UByte(b), 2);
    FormatHex(UByte(b), 2)
  }

  /** `HexUtil.toHex(byte)` parses back to the unsigned value of the byte. */
  lemma ToHexByteValue(b: JByte)
    ensures AllHex(ToHexByte(b)) && HexValue(ToHexByte(b)) == UByte(b)
    ensures ParseHex(ToHexByte(b)) == Some(UByte(b))
  {
    ParseFormatHex(UByte(b), 2);
  }

  /** `HexUtil.toHex(short)`: always four digits. */
  function ToHexShort(s: JShort): (r: string)
    ensures |r| == 4
  {
    assert Pow16(4) == 0x1_0000;
    HexOfLength(UShort(s), 4);
    FormatHex(UShort(s), 4)
  }

  /** `HexUtil.toHex(short)` parses back to the unsigned value of the short. */
  lemma ToHexShortValue(s: JShort)
    ensures AllHex(ToHexShort(s)) && HexValue(ToHexShort(s)) == UShort(s)
    ensures ParseHex(ToHexShort(s)) == Some(UShort(s))
  {
    ParseFormatHex(UShort(s), 4);
  }

  /** The width `HexUtil.toHex(int)` chooses for an unsigned value. */
  function IntHexWidth(u: nat): (w: nat)
    ensures w in {2, 4, 6, 8}
  {
    if u < 0x100 then 2 else if u < 0x1_0000 then 4 else if u < 0x100_0000 then 6 else 8
  }

  /** `HexUtil.toHex(int)`: the shortest of 2, 4, 6 or 8 digits that holds the unsigned value. */
  function ToHexInt(i: JInt): (r: string)
    ensures |r| in {2, 4, 6, 8}
  {
    var u := UInt(i);
    assert Pow16(2) == 0x100 && Pow16(4) == 0x1_0000 && Pow16(6) == 0x100_0000;
    assert Pow16(8) == 0x1_0000_0000;
    HexOfLength(u, IntHexWidth(u));
    FormatHex(u, IntHexWidth(u))
  }

  /** `HexUtil.toHex(int)` has the unsigned value of the int, uses no more pairs of digits than
      it needs, and parses back to a non-negative int. */
  lemma ToHexIntValue(i: JInt)
    ensures AllHex(ToHexInt(i)) && HexValue(ToHexInt(i)) == UInt(i)
    ensures |ToHexInt(i)| > 2 ==> UInt(i) >= Pow16(|ToHexInt(i)| - 2)
    ensures i >= 0 ==> ParseHex(ToHexInt(i)) == Some(i)
  {
    var u := UInt(i);
    assert Pow16(2) == 0x100 && Pow16(4) == 0x1_0000 && Pow16(6) == 0x100_0000;
    assert Pow16(8) == 0x1_0000_0000;
    HexOfLength(u, IntHexWidth(u));
    FormatHexValue(u, IntHexWidth(u));
    if i >= 0 {
      ParseFormatHex(u, IntHexWidth(u));
    }
  }

  /** `HexUtil.toHex(byte[])`: two digits per byte, in order. */
  function ToHexBytes(bytes: seq<JByte>): (r: string)
    ensures |r| == 2 * |bytes|
  {
    if bytes == [] then [] else ToHexBytes(bytes[..|bytes| - 1]) + ToHexByte(bytes[|bytes| - 1])
  }

  /** Byte `i` is printed at positions `2i` and `2i + 1`. */
  lemma {:induction false} ToHexBytesAt(bytes: seq<JByte>)
    ensures forall i :: 0 <= i < |bytes| ==>
      ToHexBytes(bytes)[2 * i..2 * i + 2] == ToHexByte(bytes[i])
  {
    if bytes != [] {
      var init := bytes[..|bytes| - 1];
      ToHexBytesAt(init);
      var r := ToHexBytes(bytes);
      forall i | 0 <= i < |bytes|
        ensures r[2 * i..2 * i + 2] == ToHexByte(bytes[i])
      {
        if i < |init| {
          assert r[2 * i..2 * i + 2] == ToHexBytes(init)[2 * i..2 * i + 2];
          assert bytes[i] == init[i];
        }
      }
    }
  }

  // ---------------------------------------------------------------- decimal

  predicate IsDecDigit(c: char) {
    '0' <= c <= '9'
  }

  /** The decimal digits of `n`, most significant first, without leading zeros. */
  function DecOf(n: nat): (r: string)
    ensures 1 <= |r|
    decreases n
  {
    if n < 10 then [(48 + n) as char] else DecOf(n / 10) + [(48 + n % 10) as char]
  }

  function DecDigitValue(c: char): (d: nat)
    requires IsDecDigit(c)
    ensures d < 10
  {
    c as int - 48
  }

  function DecValue(s: string): nat
    requires forall i :: 0 <= i < |s| ==> IsDecDigit(s[i])
  {
    if s == [] then 0 else 10 * DecValue(s[..|s| - 1]) + DecDigitValue(s[|s| - 1])
  }

  lemma {:induction false} DecValueOfDecOf(n: nat)
    ensures forall i :: 0 <= i < |DecOf(n)| ==> IsDecDigit(DecOf(n)[i])
    ensures DecValue(DecOf(n)) == n
    decreases n
  {
    var r := DecOf(n);
    if n < 10 {
      assert r[..0] == [];
    } else {
      var h := DecOf(n / 10);
      DecValueOfDecOf(n / 10);
      assert forall i :: 0 <= i < |h| ==> r[i] == h[i];
      assert r[..|r| - 1] == h;
    }
  }

  /** `String.valueOf(int)`, also what `"text" + i` appends for an `int` `i`. */
  function Decimal(n: int): (r: string)
    ensures 1 <= |r|
  {
    if n < 0 then "-" + DecOf(-n) else DecOf(n)
  }

  /** A printed integer starts with a digit exactly when it is not negative. */
  lemma DecimalSign(n: int)
    ensures n >= 0 <==> IsDecDigit(Decimal(n)[0])
  {
    if n >= 0 {
      DecValueOfDecOf(n);
    }
  }

  /** Distinct integers are printed differently. */
  lemma DecimalInjective(a: int, b: int)
    requires Decimal(a) == Decimal(b)
    ensures a == b
  {
    DecimalSign(a);
    DecimalSign(b);
    if a < 0 {
      DecValueOfDecOf(-a);
      DecValueOfDecOf(-b);
      assert DecOf(-a) == Decimal(a)[1..] == Decimal(b)[1..] == DecOf(-b);
    } else {
      DecValueOfDecOf(a);
      DecValueOfDecOf(b);
    }
  }
}
