/**
 * `getUnicodeInfo`, which the bottom bar shows for the selected symbol: the
 * first code point of the symbol as a `U+%04X` label and the Unicode name of
 * that code point, or `UNKNOWN` when there is none.
 */
module BottomBar {
  import opened Wrappers
  import opened Symbols
  import Picker

  /** The code point used when there is no symbol or it is empty: a space. */
  const DefaultCodePoint: CodePoint := 0x20
  /** The name shown when the lookup has none. */
  const Unknown: string := "UNKNOWN"

  /**
   * The outcome of `Character.getName(codePoint)`, which is code the model does
   * not contain: a name, `null` for an unassigned code point, or an
   * `IllegalArgumentException`.
   */
  datatype NameLookup = Named(name: string) | Unnamed | Rejected

  /** The pair `unicodeHex to name`. */
  datatype UnicodeInfo = UnicodeInfo(hex: string, name: string)

  // ---------------------------------------------------------------------------
  // Hexadecimal digits

  predicate IsHexDigit(c: char) {
    '0' <= c <= '9' || 'A' <= c <= 'F'
  }

  predicate AllHexDigits(s: string) {
    forall i :: 0 <= i < |s| ==> IsHexDigit(s[i])
  }

  function DigitValue(c: char): (d: nat)
    requires IsHexDigit(c)
    ensures d < 16
  {
    if '0' <= c <= '9' then c as int - '0' as int else c as int - 'A' as int + 10
  }

  /** The uppercase digit for `d`. */
  function HexDigit(d: nat): (c: char)
    requires d < 16
    ensures IsHexDigit(c) && DigitValue(c) == d
  {
    if d < 10 then ('0' as int + d) as char else ('A' as int + d - 10) as char
  }

  /** The value of a string of hex digits, most significant first; 0 for the empty string. */
  function ParseHex(s: string): nat
    requires AllHexDigits(s)
  {
    if s == [] then 0 else ParseHex(s[..|s| - 1]) * 16 + DigitValue(s[|s| - 1])
  }

  /** `n` in uppercase hexadecimal, without leading zeros. */
  function Hex(n: nat): (s: string)
    ensures |s| >= 1 && AllHexDigits(s)
    ensures s[0] == '0' <==> n == 0
  {
    if n < 16 then [HexDigit(n)] else Hex(n / 16) + [HexDigit(n % 16)]
  }

  function Zeros(k: nat): (z: string)
    ensures |z| == k && AllHexDigits(z)
  {
    seq(k, _ => '0')
  }

  /** `"%04X".format(n)`: at least four digits, padded with zeros in front. */
  function Format04X(n: nat): string
  {
    var h := Hex(n);
    (if |h| < 4 then Zeros(4 - |h|) else []) + h
  }

  /** The `unicodeHex` half of the pair: `"U+%04X".format(codePoint)`. */
  function Label(cp: CodePoint): string
  {
    "U+" + Format04X(cp)
  }

  /** Reads a label back: the number after `U+`, if what follows is a string of hex digits. */
  function LabelValue(text: string): Option<nat>
  {
    if |text| > 2 && text[..2] == "U+" && AllHexDigits(text[2..]) then Some(ParseHex(text[2..]))
    else None
  }

  // ---------------------------------------------------------------------------
  // getUnicodeInfo

  /** `symbol?.codePoints()?.toArray()?.firstOrNull() ?: 0x20`. */
  function FirstCodePoint(symbol: Option<Symbol>): CodePoint
  {
    if symbol.Some? && |symbol.value| > 0 then symbol.value[0] else DefaultCodePoint
  }

  /** `Character.getName(codePoint) ?: "UNKNOWN"`, with the exception caught as `"UNKNOWN"`. */
  function NameOf(cp: CodePoint, lookup: CodePoint -> NameLookup): string
  {
    match lookup(cp)
    case Named(n) => n
    case Unnamed => Unknown
    case Rejected => Unknown
  }

  function GetUnicodeInfo(symbol: Option<Symbol>, lookup: CodePoint -> NameLookup): UnicodeInfo
  {
    var cp := FirstCodePoint(symbol);
    UnicodeInfo(Label(cp), NameOf(cp, lookup))
  }

  // ---------------------------------------------------------------------------
  // Properties of the label

  lemma {:induction false} HexRoundTrip(n: nat)
    ensures ParseHex(Hex(n)) == n
  {
    var h := Hex(n);
    if n < 16 {
      assert h[..0] == [];
    } else {
      HexRoundTrip(n / 16);
      assert h[..|h| - 1] == Hex(n / 16);
    }
  }

  lemma {:induction false} ZerosAreZero(k: nat)
    ensures ParseHex(Zeros(k)) == 0
  {
    if k > 0 {
      assert Zeros(k)[..k - 1] == Zeros(k - 1);
      ZerosAreZero(k - 1);
    }
  }

  /** Leading zeros do not change the value. */
  lemma {:induction false} LeadingZeros(k: nat, s: string)
    requires AllHexDigits(s)
    ensures AllHexDigits(Zeros(k) + s) && ParseHex(Zeros(k) + s) == ParseHex(s)
  {
    var z := Zeros(k) + s;
    if s == [] {
      assert z == Zeros(k);
      ZerosAreZero(k);
    } else {
      var init := s[..|s| - 1];
      assert z[..|z| - 1] == Zeros(k) + init;
      LeadingZeros(k, init);
    }
  }

  /**
   * The label is `U+` and then uppercase hex digits: zero-padded to four,
   * longer without truncation when the code point needs more, and never
   * with a leading zero past the fourth digit.
   */
  lemma LabelShape(cp: CodePoint)
    ensures Label(cp)[..2] == "U+" && AllHexDigits(Label(cp)[2..])
    ensures |Label(cp)| == 2 + (if |Hex(cp)| < 4 then 4 else |Hex(cp)|)
    ensures Label(cp)[2..] == Zeros(|Label(cp)| - 2 - |Hex(cp)|) + Hex(cp)
    ensures |Label(cp)| > 6 ==> Label(cp)[2] != '0'
  {
  }

  /** Reading the label back gives the code point: the label loses nothing. */
  lemma LabelRoundTrip(cp: CodePoint)
    ensures LabelValue(Label(cp)) == Some(cp)
  {
    LabelShape(cp);
    var digits := Label(cp)[2..];
    LeadingZeros(|digits| - |Hex(cp)|, Hex(cp));
    HexRoundTrip(cp);
  }

  /** Different code points get different labels. */
  lemma LabelInjective(a: CodePoint, b: CodePoint)
    requires Label(a) == Label(b)
    ensures a == b
  {
    LabelRoundTrip(a);
    LabelRoundTrip(b);
  }

  lemma LabelExamples()
    ensures Label(0x20) == "U+0020"
    ensures Label(0x1F600) == "U+1F600"
  {
    assert Hex(0x20) == "20";
    assert Hex(0x1F600) == "1F600";
  }

  // ---------------------------------------------------------------------------
  // Properties of getUnicodeInfo

  /** A missing or empty symbol is described as the space character. */
  lemma DefaultIsSpace(lookup: CodePoint -> NameLookup)
    ensures GetUnicodeInfo(None, lookup).hex == "U+0020"
    ensures GetUnicodeInfo(Some([]), lookup).hex == "U+0020"
    ensures GetUnicodeInfo(None, lookup) == GetUnicodeInfo(Some([0x20]), lookup)
  {
  }

  /** Only the first code point of the symbol is described. */
  lemma OnlyFirstCodePoint(c: CodePoint, rest: Symbol, lookup: CodePoint -> NameLookup)
    ensures GetUnicodeInfo(Some([c] + rest), lookup) == GetUnicodeInfo(Some([c]), lookup)
    ensures LabelValue(GetUnicodeInfo(Some([c] + rest), lookup).hex) == Some(c)
  {
    LabelRoundTrip(c);
  }

  /** The name is the looked-up one when there is one, and `UNKNOWN` when the lookup yields null or throws. */
  lemma NameFallback(symbol: Option<Symbol>, lookup: CodePoint -> NameLookup)
    ensures var cp := FirstCodePoint(symbol);
            GetUnicodeInfo(symbol, lookup).name ==
              (if lookup(cp).Named? then lookup(cp).name else "UNKNOWN")
  {
  }

  /** A cell of the browse page is described by exactly the code point it was built from. */
  lemma BrowseCellLabel(offset: nat, total: nat, i: nat, lookup: CodePoint -> NameLookup)
    requires offset + total <= CodePointLimit && i < total
    ensures LabelValue(GetUnicodeInfo(Some(Picker.BrowsePage(offset, total)[i]), lookup).hex) == Some(offset + i)
  {
    LabelRoundTrip(offset + i);
  }
}
