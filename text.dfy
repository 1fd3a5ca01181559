/** Character and number formatting shared by the samples: the decimal and
    hexadecimal renderings of std::to_string, printf "%d"/"%lu"/"%08x" and
    iostream std::hex, the strtol-style parsing behind std::stoi, std::stol and
    std::stoll, and ASCII lower-casing as std::tolower does in the "C" locale. */
module Text {
  import opened Wrappers

  predicate IsDigit(c: char) { '0' <= c <= '9' }

  predicate AllDigits(s: string) { forall i :: 0 <= i < |s| ==> IsDigit(s[i]) }

  /** The characters isspace accepts in the "C" locale. */
  predicate IsSpace(c: char) { c == ' ' || c == '\t' || c == '\n' || c == '\r' || c as int == 11 || c as int == 12 }

  function DigitChar(d: nat): (c: char)
    requires d < 10
    ensures IsDigit(c)
  {
    ('0' as int + d) as char
  }

  function DigitValue(c: char): (d: nat)
    requires IsDigit(c)
    ensures d < 10 && DigitChar(d) == c
  {
    c as int - '0' as int
  }

  /** The decimal rendering of a non-negative number, without leading zeros. */
  function NatToDecimal(n: nat): (s: string)
    ensures |s| >= 1 && AllDigits(s)
    ensures (s[0] == '0') == (n == 0)
    decreases n
  {
    if n < 10 then [DigitChar(n)] else NatToDecimal(n / 10) + [DigitChar(n % 10)]
  }

  /** std::to_string / printf "%d" of a signed number. */
  function IntToDecimal(i: int): string
  {
    if i < 0 then "-" + NatToDecimal(-i) else NatToDecimal(i)
  }

  /** The value of a string of decimal digits. */
  function DecimalValue(s: string): nat
    requires AllDigits(s)
  {
    if s == [] then 0 else DecimalValue(s[..|s| - 1]) * 10 + DigitValue(s[|s| - 1])
  }

  lemma {:induction false} DecimalRoundTrip(n: nat)
    ensures DecimalValue(NatToDecimal(n)) == n
    decreases n
  {
    if n >= 10 {
      var s := NatToDecimal(n);
      assert s[..|s| - 1] == NatToDecimal(n / 10);
      DecimalRoundTrip(n / 10);
    }
  }

  /** Number of leading characters of s that are decimal digits. */
  function LeadingDigits(s: string): (n: nat)
    ensures n <= |s| && AllDigits(s[..n])
    ensures n < |s| ==> !IsDigit(s[n])
  {
    if s != [] && IsDigit(s[0]) then
      var k := LeadingDigits(s[1..]);
      assert s[..k + 1] == [s[0]] + s[1..][..k];
      k + 1
    else 0
  }

  /** Number of leading white-space characters of s. */
  function LeadingSpaces(s: string): (n: nat)
    ensures n <= |s|
    ensures n < |s| ==> !IsSpace(s[n])
  {
    if s != [] && IsSpace(s[0]) then LeadingSpaces(s[1..]) + 1 else 0
  }

  /** What strtol/strtoll in base 10 read from the front of s: leading white
      space, an optional sign and the longest run of digits after it; None
      when there is no digit there (std::sto* then throw invalid_argument).
      Characters after the digits are ignored. */
  function ParseLeadingInteger(s: string): Option<int>
  {
    var t := s[LeadingSpaces(s)..];
    var signed := |t| > 0 && (t[0] == '-' || t[0] == '+');
    var u := if signed then t[1..] else t;
    var n := LeadingDigits(u);
    var magnitude: int := DecimalValue(u[..n]);
    if n == 0 then None
    else if signed && t[0] == '-' then Some(-magnitude)
    else Some(magnitude)
  }

  /** What may follow a number without being read as part of it. */
  predicate EndsNumber(suffix: string) { suffix == [] || !IsDigit(suffix[0]) }

  lemma {:induction false} LeadingDigitsThen(d: string, suffix: string)
    requires AllDigits(d) && EndsNumber(suffix)
    ensures LeadingDigits(d + suffix) == |d|
    decreases |d|
  {
    if d == [] {
      assert d + suffix == suffix;
    } else {
      assert (d + suffix)[1..] == d[1..] + suffix;
      LeadingDigitsThen(d[1..], suffix);
    }
  }

  lemma ParseDigits(d: string, suffix: string)
    requires |d| >= 1 && AllDigits(d) && EndsNumber(suffix)
    ensures ParseLeadingInteger(d + suffix) == Some(DecimalValue(d))
  {
    var s := d + suffix;
    assert s[0] == d[0] && IsDigit(s[0]);
    assert LeadingSpaces(s) == 0;
    assert s[0..] == s;
    LeadingDigitsThen(d, suffix);
    assert s[..|d|] == d;
  }

  lemma ParseNegativeDigits(d: string, suffix: string)
    requires |d| >= 1 && AllDigits(d) && EndsNumber(suffix)
    ensures ParseLeadingInteger("-" + d + suffix) == Some(-(DecimalValue(d) as int))
  {
    LeadingDigitsThen(d, suffix);
    ParseMinus(d, suffix);
  }

  lemma ParseMinus(d: string, suffix: string)
    requires |d| >= 1 && AllDigits(d) && LeadingDigits(d + suffix) == |d|
    ensures ParseLeadingInteger("-" + d + suffix) == Some(-(DecimalValue(d) as int))
  {
    var s := "-" + d + suffix;
    assert !IsSpace(s[0]);
    assert LeadingSpaces(s) == 0;
    assert s[0..] == s;
    assert s[1..] == d + suffix;
    assert (d + suffix)[..|d|] == d;
  }

  lemma NatDecimalParses(n: nat, suffix: string)
    requires EndsNumber(suffix)
    ensures ParseLeadingInteger(NatToDecimal(n) + suffix) == Some(n)
    ensures ParseLeadingInteger("-" + NatToDecimal(n) + suffix) == Some(-(n as int))
  {
    DecimalRoundTrip(n);
    ParseDigits(NatToDecimal(n), suffix);
    ParseNegativeDigits(NatToDecimal(n), suffix);
  }

  /** Parsing the decimal rendering of a number, followed by anything that
      does not start with a digit, gives the number back. */
  lemma IntDecimalThen(i: int, suffix: string)
    requires EndsNumber(suffix)
    ensures ParseLeadingInteger(IntToDecimal(i) + suffix) == Some(i)
  {
    if i < 0 {
      NatDecimalParses(-i, suffix);
    } else {
      NatDecimalParses(i, suffix);
    }
  }

  /** Parsing the decimal rendering of a number gives the number back. */
  lemma IntDecimalRoundTrip(i: int)
    ensures ParseLeadingInteger(IntToDecimal(i)) == Some(i)
  {
    IntDecimalThen(i, "");
    assert IntToDecimal(i) + "" == IntToDecimal(i);
  }

  /** C++ integer division: the quotient truncated toward zero, for a divisor
      of either sign. */
  function TruncQuot(a: int, b: int): (q: int)
    requires b != 0
    ensures a >= 0 && b > 0 ==> q == a / b && q >= 0
    ensures a >= 0 && b < 0 ==> q <= 0
  {
    if b > 0 then (if a >= 0 then a / b else -((-a) / b))
    else (if a >= 0 then -(a / -b) else (-a) / -b)
  }

  /** The errors std::stoi, std::stol and std::stoll throw. */
  datatype ConversionError = InvalidArgument | OutOfRange

  const INT32_MIN: int := -0x8000_0000
  const INT32_MAX: int := 0x7fff_ffff
  const INT64_MIN: int := -0x8000_0000_0000_0000
  const INT64_MAX: int := 0x7fff_ffff_ffff_ffff

  /** std::stoi (lo, hi = the int range) or std::stoll (the long long range). */
  function StringToInteger(s: string, lo: int, hi: int): (r: Result<int, ConversionError>)
    ensures r.Ok? <==> ParseLeadingInteger(s).Some? && lo <= ParseLeadingInteger(s).value <= hi
    ensures r.Ok? ==> r.value == ParseLeadingInteger(s).value
    ensures r == Err(InvalidArgument) <==> ParseLeadingInteger(s).None?
  {
    match ParseLeadingInteger(s)
    case None => Err(InvalidArgument)
    case Some(v) => if lo <= v <= hi then Ok(v) else Err(OutOfRange)
  }

  function HexDigit(d: nat): (c: char)
    requires d < 16
  {
    if d < 10 then DigitChar(d) else ('a' as int + d - 10) as char
  }

  predicate IsHexDigit(c: char) { IsDigit(c) || 'a' <= c <= 'f' }

  function HexDigitValue(c: char): (d: nat)
    requires IsHexDigit(c)
    ensures d < 16 && HexDigit(d) == c
  {
    if IsDigit(c) then DigitValue(c) else c as int - 'a' as int + 10
  }

  predicate AllHexDigits(s: string) { forall i :: 0 <= i < |s| ==> IsHexDigit(s[i]) }

  /** Lower-case hexadecimal rendering without leading zeros (std::hex, "%x"). */
  function NatToHex(n: nat): (s: string)
    ensures |s| >= 1 && AllHexDigits(s)
    decreases n
  {
    if n < 16 then [HexDigit(n)] else NatToHex(n / 16) + [HexDigit(n % 16)]
  }

  function HexValue(s: string): nat
    requires AllHexDigits(s)
  {
    if s == [] then 0 else HexValue(s[..|s| - 1]) * 16 + HexDigitValue(s[|s| - 1])
  }

  lemma {:induction false} HexRoundTrip(n: nat)
    ensures HexValue(NatToHex(n)) == n
    decreases n
  {
    if n >= 16 {
      var s := NatToHex(n);
      assert s[..|s| - 1] == NatToHex(n / 16);
      HexRoundTrip(n / 16);
    }
  }

  /** Right-justify s in a field of the given width filled with c
      (std::setw with std::setfill, or the 0 flag and width of printf). */
  function PadLeft(s: string, width: nat, c: char): (r: string)
    ensures |r| == if |s| < width then width else |s|
    ensures r[|r| - |s|..] == s
    ensures forall i :: 0 <= i < |r| - |s| ==> r[i] == c
  {
    if |s| < width then seq(width - |s|, _ => c) + s else s
  }

  /** printf("%08x") and `std::setw(8) << std::setfill('0') << std::hex`. */
  function Hex8(n: nat): (r: string)
    ensures |r| >= 8 && AllHexDigits(r)
  {
    PadLeft(NatToHex(n), 8, '0')
  }

  lemma HexValueLeadingZeros(z: nat, s: string)
    requires AllHexDigits(s)
    ensures AllHexDigits(seq(z, _ => '0') + s)
    ensures HexValue(seq(z, _ => '0') + s) == HexValue(s)
    decreases |s|
  {
    var t := seq(z, _ => '0') + s;
    if s == [] {
      assert t == seq(z, _ => '0');
      ZerosHaveNoValue(z);
    } else {
      assert t[..|t| - 1] == seq(z, _ => '0') + s[..|s| - 1];
      HexValueLeadingZeros(z, s[..|s| - 1]);
    }
  }

  lemma ZerosHaveNoValue(z: nat)
    ensures AllHexDigits(seq(z, _ => '0'))
    ensures HexValue(seq(z, _ => '0')) == 0
  {
    if z > 0 {
      assert seq(z, _ => '0')[..z - 1] == seq(z - 1, _ => '0');
      ZerosHaveNoValue(z - 1);
    }
  }

  /** The zero-padded 8-digit rendering still reads back as the number. */
  lemma {:induction false} Hex8RoundTrip(n: nat)
    ensures HexValue(Hex8(n)) == n
  {
    var h := NatToHex(n);
    HexRoundTrip(n);
    if |h| < 8 {
      HexValueLeadingZeros(8 - |h|, h);
    }
  }

  function Pow16(k: nat): nat
  {
    if k == 0 then 1 else 16 * Pow16(k - 1)
  }

  /** A value below 16^k has at most k hexadecimal digits. */
  lemma {:induction false} HexWidth(n: nat, k: nat)
    requires k >= 1 && n < Pow16(k)
    ensures |NatToHex(n)| <= k
    decreases k
  {
    if n >= 16 {
      assert n / 16 < Pow16(k - 1);
      HexWidth(n / 16, k - 1);
    }
  }

  /** A 32-bit value fills exactly the eight digits of "%08x". */
  lemma Hex8OfWord(n: nat)
    requires n < 0x1_0000_0000
    ensures |Hex8(n)| == 8
  {
    assert Pow16(8) == 0x1_0000_0000;
    HexWidth(n, 8);
  }

  /** std::tolower in the "C" locale. */
  function ToLowerChar(c: char): char
  {
    if 'A' <= c <= 'Z' then (c as int + 32) as char else c
  }

  function ToLower(s: string): (r: string)
    ensures |r| == |s| && forall i :: 0 <= i < |s| ==> r[i] == ToLowerChar(s[i])
  {
    seq(|s|, i requires 0 <= i < |s| => ToLowerChar(s[i]))
  }
}
