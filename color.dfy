/**
 * The integer part of `Color(hex:)`: trim the non-alphanumeric characters
 * at both ends, read the leading hexadecimal digits as one number, and
 * split it into alpha, red, green and blue by the trimmed length.
 */
module HexColor {

  /** Alpha, red, green and blue, each before the division by 255. */
  datatype Argb = Argb(alpha: nat, red: nat, green: nat, blue: nat)

  const OpaqueBlack := Argb(255, 0, 0, 0)

  predicate IsAlphanumeric(c: char) {
    ('a' <= c <= 'z') || ('A' <= c <= 'Z') || ('0' <= c <= '9')
  }

  predicate IsHexDigit(c: char) {
    ('0' <= c <= '9') || ('a' <= c <= 'f') || ('A' <= c <= 'F')
  }

  predicate AllHexDigits(s: string) { forall i :: 0 <= i < |s| ==> IsHexDigit(s[i]) }

  function HexDigitValue(c: char): (d: nat)
    requires IsHexDigit(c)
    ensures d < 16
  {
    if '0' <= c <= '9' then (c as int - '0' as int) as nat
    else if 'a' <= c <= 'f' then (c as int - 'a' as int + 10) as nat
    else (c as int - 'A' as int + 10) as nat
  }

  /** `s` without its leading non-alphanumeric characters. */
  function TrimLeading(s: string): (r: string)
    ensures |r| <= |s| && r == s[|s| - |r|..]
    ensures r == [] || IsAlphanumeric(r[0])
    ensures forall i :: 0 <= i < |s| - |r| ==> !IsAlphanumeric(s[i])
  {
    if s == [] || IsAlphanumeric(s[0]) then s else TrimLeading(s[1..])
  }

  /** `s` without its trailing non-alphanumeric characters. */
  function TrimTrailing(s: string): (r: string)
    ensures |r| <= |s| && r == s[..|r|]
    ensures r == [] || IsAlphanumeric(r[|r| - 1])
    ensures forall i :: |r| <= i < |s| ==> !IsAlphanumeric(s[i])
  {
    if s == [] || IsAlphanumeric(s[|s| - 1]) then s else TrimTrailing(s[..|s| - 1])
  }

  /** `trimmingCharacters(in: CharacterSet.alphanumerics.inverted)`. */
  function Trim(s: string): (r: string)
    ensures |r| <= |s|
    ensures r == [] || (IsAlphanumeric(r[0]) && IsAlphanumeric(r[|r| - 1]))
  {
    TrimTrailing(TrimLeading(s))
  }

  /** The number of hexadecimal digits `s` starts with. */
  function LeadingHexCount(s: string): (n: nat)
    ensures n <= |s| && AllHexDigits(s[..n])
    ensures n < |s| ==> !IsHexDigit(s[n])
  {
    if s == [] || !IsHexDigit(s[0]) then 0
    else
      var n := 1 + LeadingHexCount(s[1..]);
      assert s[..n] == [s[0]] + s[1..][..n - 1];
      n
  }

  /** The value of a string of hexadecimal digits, most significant first. */
  function HexValue(s: string): (v: nat)
    requires AllHexDigits(s)
    ensures v < Pow16(|s|)
  {
    if s == [] then 0 else 16 * HexValue(s[..|s| - 1]) + HexDigitValue(s[|s| - 1])
  }

  function Pow16(n: nat): (p: nat)
    ensures p > 0
  {
    if n == 0 then 1 else 16 * Pow16(n - 1)
  }

  /**
   * What `Scanner.scanHexInt64` stores: the value of the leading hexadecimal
   * digits. It is exact; the scanner's `UInt64` overflows beyond 16 digits,
   * which only happens for lengths that give opaque black.
   */
  function ScanHex(s: string): (v: nat)
    ensures v < Pow16(|s|)
  {
    var n := LeadingHexCount(s);
    Pow16Monotonic(n, |s|);
    HexValue(s[..n])
  }

  /** The components `Color(hex:)` computes before converting them to `Double`. */
  function Components(hex: string): (c: Argb)
    ensures c.alpha < 256 && c.red < 256 && c.green < 256 && c.blue < 256
    ensures |Trim(hex)| != 3 && |Trim(hex)| != 6 && |Trim(hex)| != 8 ==> c == OpaqueBlack
    ensures |Trim(hex)| == 3 || |Trim(hex)| == 6 ==> c.alpha == 255
  {
    TrimmedComponents(Trim(hex))
  }

  /** The components of an already trimmed string, chosen by its length. */
  function TrimmedComponents(t: string): (c: Argb)
    ensures c.alpha < 256 && c.red < 256 && c.green < 256 && c.blue < 256
    ensures |t| != 3 && |t| != 6 && |t| != 8 ==> c == OpaqueBlack
    ensures |t| == 3 || |t| == 6 ==> c.alpha == 255
  {
    var v := ScanHex(t);
    if |t| == 3 then ShortRgb(v)
    else if |t| == 6 then LongRgb(v)
    else if |t| == 8 then LongArgb(v)
    else OpaqueBlack
  }

  // In the three cases below, `x >> k` is `x / 2^k` and `x & m` with m = 2^k - 1 is `x % 2^k`.

  /** The three-digit case "RGB": opaque, each 4-bit digit scaled by 17 to a byte. */
  function ShortRgb(v: nat): (c: Argb)
    requires v < Pow16(3)
    ensures c.alpha == 255 && c.red < 256 && c.green < 256 && c.blue < 256
  {
    ComponentBounds(v, 3);
    Argb(255, (v / 256) * 17, (v / 16 % 16) * 17, (v % 16) * 17)
  }

  /** The six-digit case "RRGGBB": opaque, one byte per colour. */
  function LongRgb(v: nat): (c: Argb)
    requires v < Pow16(6)
    ensures c.alpha == 255 && c.red < 256 && c.green < 256 && c.blue < 256
  {
    ComponentBounds(v, 6);
    Argb(255, v / 65536, v / 256 % 256, v % 256)
  }

  /** The eight-digit case "AARRGGBB": alpha in the top byte. */
  function LongArgb(v: nat): (c: Argb)
    requires v < Pow16(8)
    ensures c.alpha < 256 && c.red < 256 && c.green < 256 && c.blue < 256
  {
    ComponentBounds(v, 8);
    Argb(v / 16777216, v / 65536 % 256, v / 256 % 256, v % 256)
  }

  /** The top component of each case fits a byte, given the scanned value's digit count. */
  lemma ComponentBounds(v: nat, n: nat)
    requires n == 3 || n == 6 || n == 8
    requires v < Pow16(n)
    ensures n == 3 ==> (v / 256) * 17 < 256 && (v / 16 % 16) * 17 < 256 && (v % 16) * 17 < 256
    ensures n == 6 ==> v / 65536 < 256
    ensures n == 8 ==> v / 16777216 < 256
  {
    Pow16Values();
    if n == 3 {
      assert v / 256 < 16;
    }
  }

  lemma Pow16Values()
    ensures Pow16(3) == 4096 && Pow16(6) == 16777216 && Pow16(8) == 4294967296
  {
    assert Pow16(2) == 256;
    assert Pow16(4) == 65536;
  }

  lemma {:induction false} Pow16Monotonic(m: nat, n: nat)
    requires m <= n
    ensures Pow16(m) <= Pow16(n)
  {
    if m < n { Pow16Monotonic(m, n - 1); }
  }

  /** Appending two digits multiplies the value so far by 256. */
  lemma HexValueAppendTwo(s: string, t: string)
    requires AllHexDigits(s) && |t| == 2 && AllHexDigits(t)
    ensures AllHexDigits(s + t)
    ensures HexValue(s + t) == HexValue(s) * 256 + 16 * HexDigitValue(t[0]) + HexDigitValue(t[1])
  {
    var st := s + t;
    assert st[..|st| - 1] == s + [t[0]];
    assert (s + [t[0]])[..|s|] == s;
  }

  lemma DivMod(q: nat, r: nat, m: nat)
    requires m == 16 || m == 256 || m == 65536 || m == 16777216
    requires r < m
    ensures (q * m + r) / m == q && (q * m + r) % m == r
  {
    if m == 16 {
      assert q * m == q * 16;
    } else if m == 256 {
      assert q * m == q * 256;
    } else if m == 65536 {
      assert q * m == q * 65536;
    } else {
      assert q * m == q * 16777216;
    }
  }

  /** Hexadecimal digits are alphanumeric, so trimming leaves them alone. */
  lemma TrimHexDigits(s: string)
    requires AllHexDigits(s)
    ensures Trim(s) == s
  {
  }

  lemma ScanAllHex(s: string)
    requires AllHexDigits(s)
    ensures ScanHex(s) == HexValue(s)
  {
    assert s[..|s|] == s;
  }

  /** Two hexadecimal digits make one byte. */
  lemma HexValueTwo(s: string)
    requires |s| == 2 && AllHexDigits(s)
    ensures HexValue(s) == 16 * HexDigitValue(s[0]) + HexDigitValue(s[1]) < 256
  {
    HexValueAppendTwo([], s);
    assert [] + s == s;
  }

  /** Three digits "RGB" are opaque, each digit repeated into its byte (times 17). */
  lemma ThreeDigitColor(s: string)
    requires |s| == 3 && AllHexDigits(s)
    ensures Components(s) == Argb(255, HexDigitValue(s[0]) * 17, HexDigitValue(s[1]) * 17, HexDigitValue(s[2]) * 17)
  {
    TrimHexDigits(s);
    ScanAllHex(s);
    HexValueAppendTwo(s[..1], s[1..]);
    assert s[..1] + s[1..] == s;
    assert s[..1][..0] == [];
    var d0, d1, d2 := HexDigitValue(s[0]), HexDigitValue(s[1]), HexDigitValue(s[2]);
    assert HexValue(s) == d0 * 256 + (d1 * 16 + d2);
    DivMod(d0, d1 * 16 + d2, 256);
    DivMod(d0 * 16 + d1, d2, 16);
    DivMod(d0, d1, 16);
  }

  /** Six digits "RRGGBB" are opaque, one byte per pair of digits. */
  lemma SixDigitColor(s: string)
    requires |s| == 6 && AllHexDigits(s)
    ensures AllHexDigits(s[..2]) && AllHexDigits(s[2..4]) && AllHexDigits(s[4..])
    ensures Components(s) == Argb(255, HexValue(s[..2]), HexValue(s[2..4]), HexValue(s[4..]))
  {
    TrimHexDigits(s);
    ScanAllHex(s);
    var r, g, b := s[..2], s[2..4], s[4..];
    HexValueTwo(r);
    HexValueTwo(g);
    HexValueTwo(b);
    HexValueAppendTwo(r, g);
    HexValueAppendTwo(r + g, b);
    assert r + g + b == s;
    ThreeBytes(HexValue(r), HexValue(g), HexValue(b));
  }

  /** Splitting a 24-bit value into its bytes, as the six-digit case does. */
  lemma ThreeBytes(R: nat, G: nat, B: nat)
    requires R < 256 && G < 256 && B < 256
    ensures var v := R * 65536 + (G * 256 + B);
      v / 65536 == R && v / 256 % 256 == G && v % 256 == B
  {
    var v := R * 65536 + (G * 256 + B);
    DivMod(R, G * 256 + B, 65536);
    assert v == (R * 256 + G) * 256 + B;
    DivMod(R * 256 + G, B, 256);
    DivMod(R, G, 256);
  }

  /** Eight digits "AARRGGBB" carry the alpha in the top byte. */
  lemma EightDigitColor(s: string)
    requires |s| == 8 && AllHexDigits(s)
    ensures AllHexDigits(s[..2]) && AllHexDigits(s[2..4]) && AllHexDigits(s[4..6]) && AllHexDigits(s[6..])
    ensures Components(s) == Argb(HexValue(s[..2]), HexValue(s[2..4]), HexValue(s[4..6]), HexValue(s[6..]))
  {
    TrimHexDigits(s);
    ScanAllHex(s);
    EightDigitValue(s);
    FourBytes(HexValue(s[..2]), HexValue(s[2..4]), HexValue(s[4..6]), HexValue(s[6..]));
  }

  /** The value of eight digits, one byte per pair. */
  lemma EightDigitValue(s: string)
    requires |s| == 8 && AllHexDigits(s)
    ensures AllHexDigits(s[..2]) && AllHexDigits(s[2..4]) && AllHexDigits(s[4..6]) && AllHexDigits(s[6..])
    ensures HexValue(s[..2]) < 256 && HexValue(s[2..4]) < 256 && HexValue(s[4..6]) < 256 && HexValue(s[6..]) < 256
    ensures HexValue(s) ==
      HexValue(s[..2]) * 16777216 + (HexValue(s[2..4]) * 65536 + HexValue(s[4..6]) * 256 + HexValue(s[6..]))
  {
    var a, r, g, b := s[..2], s[2..4], s[4..6], s[6..];
    assert a + r == s[..4];
    assert s[..4] + g == s[..6];
    assert s[..6] + b == s;
    HexValueTwo(a);
    HexValueTwo(r);
    HexValueTwo(g);
    HexValueTwo(b);
    var A, R, G, B := HexValue(a), HexValue(r), HexValue(g), HexValue(b);
    HexValueAppendTwo(a, r);
    assert HexValue(s[..4]) == A * 256 + R;
    HexValueAppendTwo(s[..4], g);
    assert HexValue(s[..6]) == (A * 256 + R) * 256 + G;
    HexValueAppendTwo(s[..6], b);
    assert HexValue(s) == ((A * 256 + R) * 256 + G) * 256 + B;
  }

  /** Splitting a 32-bit value into its bytes, as the eight-digit case does. */
  lemma FourBytes(A: nat, R: nat, G: nat, B: nat)
    requires A < 256 && R < 256 && G < 256 && B < 256
    ensures var v := A * 16777216 + (R * 65536 + G * 256 + B);
      v / 16777216 == A && v / 65536 % 256 == R && v / 256 % 256 == G && v % 256 == B
  {
    var v := A * 16777216 + (R * 65536 + G * 256 + B);
    DivMod(A, R * 65536 + G * 256 + B, 16777216);
    assert v == (A * 256 + R) * 65536 + (G * 256 + B);
    DivMod(A * 256 + R, G * 256 + B, 65536);
    DivMod(A, R, 256);
    assert v == (A * 65536 + R * 256 + G) * 256 + B;
    DivMod(A * 65536 + R * 256 + G, B, 256);
    assert A * 65536 + R * 256 + G == (A * 256 + R) * 256 + G;
    DivMod(A * 256 + R, G, 256);
  }

  /** Trimming removes exactly the non-alphanumeric characters around an alphanumeric core. */
  lemma TrimExact(p: string, m: string, q: string)
    requires forall i :: 0 <= i < |p| ==> !IsAlphanumeric(p[i])
    requires forall i :: 0 <= i < |q| ==> !IsAlphanumeric(q[i])
    requires m == [] || (IsAlphanumeric(m[0]) && IsAlphanumeric(m[|m| - 1]))
    ensures Trim(p + m + q) == m
  {
    assert p + m + q == p + (m + q);
    TrimLeadingSkips(p, m + q);
    if m == [] {
      TrimNothingLeft(q);
      assert m + q == q;
    } else {
      TrimCoreKept(m, q);
    }
  }

  /** A string with no alphanumeric character trims to nothing. */
  lemma TrimNothingLeft(q: string)
    requires forall i :: 0 <= i < |q| ==> !IsAlphanumeric(q[i])
    ensures TrimLeading(q) == []
  {
    TrimLeadingSkips(q, []);
    assert q + [] == q;
  }

  /** Trailing padding after a core that starts and ends alphanumerically is all that goes. */
  lemma TrimCoreKept(m: string, q: string)
    requires forall i :: 0 <= i < |q| ==> !IsAlphanumeric(q[i])
    requires m != [] && IsAlphanumeric(m[0]) && IsAlphanumeric(m[|m| - 1])
    ensures TrimTrailing(TrimLeading(m + q)) == m
  {
    assert (m + q)[0] == m[0];
    assert TrimLeading(m + q) == m + q;
    TrimTrailingSkips(m, q);
  }

  /** A leading '#' (or any run of non-alphanumeric characters) does not change the colour. */
  lemma HashPrefixIgnored(prefix: string, s: string)
    requires forall i :: 0 <= i < |prefix| ==> !IsAlphanumeric(prefix[i])
    ensures Components(prefix + s) == Components(s)
  {
    TrimLeadingSkips(prefix, s);
  }

  lemma {:induction false} TrimTrailingSkips(s: string, suffix: string)
    requires forall i :: 0 <= i < |suffix| ==> !IsAlphanumeric(suffix[i])
    ensures TrimTrailing(s + suffix) == TrimTrailing(s)
  {
    if suffix != [] {
      var shorter := suffix[..|suffix| - 1];
      assert (s + suffix)[..|s + suffix| - 1] == s + shorter;
      TrimTrailingSkips(s, shorter);
    } else {
      assert s + suffix == s;
    }
  }

  lemma {:induction false} TrimLeadingSkips(prefix: string, s: string)
    requires forall i :: 0 <= i < |prefix| ==> !IsAlphanumeric(prefix[i])
    ensures TrimLeading(prefix + s) == TrimLeading(s)
  {
    if prefix != [] {
      assert (prefix + s)[1..] == prefix[1..] + s;
      TrimLeadingSkips(prefix[1..], s);
    } else {
      assert prefix + s == s;
    }
  }
}
