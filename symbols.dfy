/**
 * Symbols as the picker sees them: a Kotlin String taken as the sequence of its
 * Unicode code points, so that `Character.toString(cp)` is the one-element
 * sequence `[cp]` and the empty string is `[]`.
 */
module Symbols {

  /** One past the largest Unicode code point, U+10FFFF. */
  const CodePointLimit: int := 0x110000

  /** A valid Unicode code point (what `Character.isValidCodePoint` accepts). */
  type CodePoint = c: int | 0 <= c < CodePointLimit

  /** A string, as its code points. */
  type Symbol = seq<CodePoint>

  /** The empty string, used for the padding cells of a recents page. */
  const Empty: Symbol := []

  /**
   * Kotlin's `Char.isWhitespace()` on the JVM: `Character.isWhitespace(ch) ||
   * Character.isSpaceChar(ch)`, i.e. the ASCII controls TAB..CR and FS..US plus
   * every space, line and paragraph separator. All of them lie in the Basic
   * Multilingual Plane, so testing code points is the same as testing chars.
   */
  predicate IsWhitespace(c: CodePoint) {
    (0x09 <= c <= 0x0D) || (0x1C <= c <= 0x20) || c == 0xA0 || c == 0x1680 ||
    (0x2000 <= c <= 0x200A) || c == 0x2028 || c == 0x2029 || c == 0x202F ||
    c == 0x205F || c == 0x3000
  }

  /** Kotlin's `CharSequence.isBlank()`: empty, or whitespace only. */
  predicate IsBlank(s: Symbol) {
    forall i :: 0 <= i < |s| ==> IsWhitespace(s[i])
  }
}
