/**
 * JavaScript string facts the validator depends on. A JavaScript string is a
 * sequence of UTF-16 code units; here a string is a sequence of Unicode scalar
 * values (`char`), so the two places where the difference shows are written out:
 * the `\s` character class of regular expressions and the `length` property.
 */
module JsString {

  /**
   * The characters `\s` matches in an ECMAScript regular expression: the
   * WhiteSpace and LineTerminator productions of ECMA-262 (TAB, VT, FF, SP,
   * NBSP, ZWNBSP, every other space separator, LF, CR, LS and PS).
   */
  predicate IsWhitespace(c: char)
  {
    var n := c as int;
    || n == 0x09 || n == 0x0A || n == 0x0B || n == 0x0C || n == 0x0D
    || n == 0x20 || n == 0xA0 || n == 0x1680
    || (0x2000 <= n <= 0x200A)
    || n == 0x2028 || n == 0x2029 || n == 0x202F || n == 0x205F
    || n == 0x3000 || n == 0xFEFF
  }

  /** No character of `s` is matched by `\s`. */
  predicate NoWhitespace(s: string)
  {
    forall i :: 0 <= i < |s| ==> !IsWhitespace(s[i])
  }

  /** Number of UTF-16 code units needed for `c`: two for a supplementary character. */
  function CodeUnits(c: char): (n: nat)
    ensures n == 1 || n == 2
  {
    if c as int > 0xFFFF then 2 else 1
  }

  /**
   * JavaScript's `s.length`: the number of UTF-16 code units, which is at least
   * the number of characters and at most twice it, and zero only for "".
   */
  function Utf16Length(s: string): (n: nat)
    ensures |s| <= n <= 2 * |s|
    ensures n == 0 <==> s == []
  {
    if s == [] then 0 else CodeUnits(s[0]) + Utf16Length(s[1..])
  }

  /** A string without supplementary characters has as many code units as characters. */
  lemma {:induction false} Utf16LengthOfBmp(s: string)
    requires forall i :: 0 <= i < |s| ==> s[i] as int <= 0xFFFF
    ensures Utf16Length(s) == |s|
  {
    if s != [] {
      Utf16LengthOfBmp(s[1..]);
    }
  }
}
